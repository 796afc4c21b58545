/** Identifiers, clock readings and the small collection vocabulary every other module uses. */
module Basics {
  datatype Option<+T> = None | Some(value: T)

  /** Identifiers are compared only for equality and order. */
  type Uuid = int

  /** A UTC instant, in nanoseconds since the epoch. */
  type Time = int

  /** A digest kept in the database; only ever compared for equality. */
  type Digest = int

  const NANOS_PER_SECOND: int := 1_000_000_000
  const HOUR: Time := 3600 * NANOS_PER_SECOND

  /** The instant with minute, second and nanosecond set to zero. */
  function HourOf(t: Time): (h: Time)
    ensures h <= t < h + HOUR && h % HOUR == 0
  {
    t - t % HOUR
  }

  function MinInt(a: int, b: int): int { if b < a then b else a }
  function MaxInt(a: int, b: int): int { if a < b then b else a }
  function MinReal(a: real, b: real): real { if b < a then b else a }
  function MaxReal(a: real, b: real): real { if a < b then b else a }

  /** An ORDER BY key of up to three columns. */
  datatype OrderKey = OrderKey(major: int, middle: int, minor: int)

  predicate Before(a: OrderKey, b: OrderKey) {
    a.major < b.major || (a.major == b.major &&
    (a.middle < b.middle || (a.middle == b.middle && a.minor < b.minor)))
  }

  predicate IsLeast(x: OrderKey, s: set<OrderKey>) {
    x in s && forall y <- s :: y == x || Before(x, y)
  }

  lemma HasLeast(s: set<OrderKey>)
    requires s != {}
    ensures exists x :: IsLeast(x, s)
    decreases |s|
  {
    var x :| x in s;
    if s != {x} {
      HasLeast(s - {x});
      var y :| IsLeast(y, s - {x});
      assert s == (s - {x}) + {x};
      if Before(x, y) {
        assert IsLeast(x, s);
      } else {
        assert IsLeast(y, s);
      }
    } else {
      assert IsLeast(x, s);
    }
  }

  function Least(s: set<OrderKey>): (x: OrderKey)
    requires s != {}
    ensures IsLeast(x, s)
  {
    HasLeast(s);
    var x :| IsLeast(x, s);
    x
  }

  ghost predicate Ordered(q: seq<OrderKey>) {
    forall i, j :: 0 <= i < j < |q| ==> Before(q[i], q[j])
  }

  function Elements<T>(q: seq<T>): (s: set<T>) {
    set x | x in q
  }

  /** What `SELECT ... ORDER BY key LIMIT limit` returns over the rows with these keys. */
  function Page(s: set<OrderKey>, limit: nat): (q: seq<OrderKey>)
    ensures |q| == if |s| <= limit then |s| else limit
    ensures forall x :: x in q ==> x in s
    decreases limit
  {
    if limit == 0 || s == {} then [] else
      var x := Least(s);
      [x] + Page(s - {x}, limit - 1)
  }

  /** A page is sorted without repetition and holds the smallest keys. */
  lemma {:induction false} PageIsFirst(s: set<OrderKey>, limit: nat)
    ensures Ordered(Page(s, limit))
    ensures forall x, y :: x in Page(s, limit) && y in s && y !in Page(s, limit) ==> Before(x, y)
    decreases limit
  {
    if limit != 0 && s != {} {
      var x := Least(s);
      var rest := Page(s - {x}, limit - 1);
      PageIsFirst(s - {x}, limit - 1);
      assert forall i :: 0 <= i < |rest| ==> rest[i] in s - {x};
      forall a, y | a in [x] + rest && y in s && y !in [x] + rest
        ensures Before(a, y)
      {
        assert y in s - {x};
      }
    }
  }

  function Preceding(s: set<OrderKey>, x: OrderKey): set<OrderKey> {
    set y | y in s && Before(y, x)
  }

  lemma PrecedingLeast(s: set<OrderKey>, least: OrderKey, x: OrderKey)
    requires IsLeast(least, s) && x in s
    ensures |Preceding(s, x)| == if x == least then 0 else |Preceding(s - {least}, x)| + 1
  {
    if x == least {
      assert Preceding(s, x) == {};
    } else {
      assert Preceding(s, x) == Preceding(s - {least}, x) + {least};
    }
  }

  /** The place of a row on a page is the number of rows before it. */
  lemma {:induction false} PageAt(s: set<OrderKey>, limit: nat, i: nat)
    requires i < |Page(s, limit)|
    ensures Page(s, limit)[i] in s && |Preceding(s, Page(s, limit)[i])| == i
    decreases limit
  {
    var least := Least(s);
    PrecedingLeast(s, least, Page(s, limit)[i]);
    if i > 0 {
      PageAt(s - {least}, limit - 1, i - 1);
    }
  }

  /** A row is on a page exactly if fewer rows than the limit come before it. */
  lemma {:induction false} PageHolds(s: set<OrderKey>, limit: nat, x: OrderKey)
    requires x in s
    ensures x in Page(s, limit) <==> |Preceding(s, x)| < limit
    decreases limit
  {
    if limit > 0 {
      var least := Least(s);
      PrecedingLeast(s, least, x);
      if x != least {
        PageHolds(s - {least}, limit - 1, x);
      }
    }
  }

  /** Rows and their keys are equally many: each key belongs to one row. */
  lemma {:induction false} KeysCount<T>(rows: set<T>, keys: set<OrderKey>, key: T -> OrderKey, row: OrderKey -> T)
    requires forall x <- rows :: key(x) in keys && row(key(x)) == x
    requires forall k <- keys :: row(k) in rows && key(row(k)) == k
    ensures |keys| == |rows|
    decreases rows
  {
    if rows == {} {
      assert keys == {};
    } else {
      var x :| x in rows;
      KeysCount(rows - {x}, keys - {key(x)}, key, row);
    }
  }

  predicate Distinct<T(==)>(q: seq<T>) {
    forall i, j :: 0 <= i < j < |q| ==> q[i] != q[j]
  }

  lemma {:induction false} DistinctCardinality<T>(q: seq<T>)
    requires Distinct(q)
    ensures |Elements(q)| == |q|
  {
    if q == [] {
      assert Elements(q) == {};
    } else {
      var n := |q| - 1;
      DistinctCardinality(q[..n]);
      assert q == q[..n] + [q[n]];
      assert Elements(q) == Elements(q[..n]) + {q[n]};
      assert q[n] !in Elements(q[..n]);
    }
  }

  /** Removing a page from the rows removes exactly as many rows as the page holds. */
  lemma PageRemoves(s: set<OrderKey>, limit: nat)
    ensures |s - Elements(Page(s, limit))| == |s| - |Page(s, limit)|
  {
    var q := Page(s, limit);
    PageIsFirst(s, limit);
    DistinctCardinality(q);
    assert s == (s - Elements(q)) + Elements(q);
    assert (s - Elements(q)) !! Elements(q);
  }

  lemma SubsetCardinality<T>(a: set<T>, b: set<T>)
    requires a <= b
    ensures |a| <= |b|
  {
    assert b == a + (b - a);
  }

  lemma MapsAgree<K, V>(before: map<K, V>, after: map<K, V>, k: K, v: V)
    requires after.Keys == before.Keys + {k}
    requires after[k] == v
    requires forall j <- before :: j != k ==> after[j] == before[j]
    ensures after == before[k := v]
  {
  }
}
