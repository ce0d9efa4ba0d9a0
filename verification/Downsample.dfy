/** The bucketing that `query` runs inside SQLite (apps/linsightd/src/history.rs).

    Rows are numbered from 0 here; the SQL numbers them from 1 (`rn`), so `i` stands for `rn - 1`.
    With `total` rows and a limit `limit`, row `i` falls into bucket `i * limit / total`, the first
    row of every bucket survives, and the survivors are cut to `limit` rows. */
module Downsample {
  import opened Prelude

  const DEFAULT_POINTS: nat := 500
  const MAX_POINTS: nat := 10_000

  /** `max_points.unwrap_or(500).clamp(1, 10_000)` */
  function Limit(maxPoints: Option<nat>): (limit: nat)
    ensures 1 <= limit <= 10_000
    ensures maxPoints.None? ==> limit == 500
    ensures maxPoints.Some? && 1 <= maxPoints.value <= 10_000 ==> limit == maxPoints.value
    ensures maxPoints.Some? && maxPoints.value > 10_000 ==> limit == 10_000
  {
    var wanted := if maxPoints.Some? then maxPoints.value else DEFAULT_POINTS;
    if wanted < 1 then 1 else if wanted > MAX_POINTS then MAX_POINTS else wanted
  }

  function Bucket(i: nat, limit: nat, total: nat): nat
    requires total > 0
  {
    i * limit / total
  }

  /** `row_number() OVER (PARTITION BY bucket ORDER BY rn)` */
  function BucketRank(i: nat, limit: nat, total: nat): nat
    requires total > 0
  {
    1 + |set j | 0 <= j < i && Bucket(j, limit, total) == Bucket(i, limit, total)|
  }

  /** The positions, among the first `upto` of `total` rows, whose `bucket_rank` is 1. */
  function Chosen(upto: nat, limit: nat, total: nat): seq<nat>
    requires upto <= total
  {
    if upto == 0 then []
    else
      Chosen(upto - 1, limit, total) + if BucketRank(upto - 1, limit, total) == 1 then [upto - 1] else []
  }

  /** `SELECT ... WHERE bucket_rank = 1 ORDER BY ts LIMIT limit` over rows already ordered by `ts`. */
  function Select<T>(rows: seq<T>, limit: nat): seq<T>
  {
    var chosen := Chosen(|rows|, limit, |rows|);
    ChosenInRange(|rows|, limit, |rows|);
    var kept := if |chosen| <= limit then chosen else chosen[..limit];
    seq(|kept|, k requires 0 <= k < |kept| => rows[kept[k]])
  }

  lemma {:induction false} ChosenInRange(upto: nat, limit: nat, total: nat)
    requires upto <= total
    ensures forall k | 0 <= k < |Chosen(upto, limit, total)| :: Chosen(upto, limit, total)[k] < upto
  {
    if upto == 0 {
    } else {
      ChosenInRange(upto - 1, limit, total);
    }
  }

  /** The position the k-th surviving row has to come from. */
  function Pick(k: nat, limit: nat, total: nat): nat
    requires limit > 0
  {
    if total <= limit then k else (k * total + limit - 1) / limit
  }

  // ---- division facts -------------------------------------------------------------------------

  lemma QuotientUnique(a: int, d: int, q: int)
    requires d > 0 && q * d <= a < (q + 1) * d
    ensures a / d == q
  {
    var r := a / d;
    assert a == r * d + a % d;
    if r < q {
      MulMonotone(r + 1, q, d);
    } else if r > q {
      MulMonotone(q + 1, r, d);
    }
  }

  lemma MulMonotone(x: int, y: int, d: int)
    requires x <= y && d >= 0
    ensures x * d <= y * d
  {
    assert (y - x) * d >= 0;
  }

  lemma QuotientBounds(a: int, d: int)
    requires d > 0
    ensures (a / d) * d <= a < (a / d + 1) * d
  {
  }

  // ---- buckets --------------------------------------------------------------------------------

  lemma BucketMonotone(i: nat, j: nat, limit: nat, total: nat)
    requires total > 0 && i <= j
    ensures Bucket(i, limit, total) <= Bucket(j, limit, total)
  {
    MulMonotone(i, j, limit);
    QuotientBounds(i * limit, total);
    QuotientBounds(j * limit, total);
    var a, b := Bucket(i, limit, total), Bucket(j, limit, total);
    if b < a { MulMonotone(b + 1, a, total); }
  }

  /** A row is first in its bucket exactly when the row just before it lies in an earlier bucket. */
  lemma FirstOfBucket(i: nat, limit: nat, total: nat)
    requires total > 0
    ensures BucketRank(i, limit, total) == 1
       <==> i == 0 || Bucket(i - 1, limit, total) < Bucket(i, limit, total)
  {
    var same := set j | 0 <= j < i && Bucket(j, limit, total) == Bucket(i, limit, total);
    if i > 0 {
      BucketMonotone(i - 1, i, limit, total);
      if Bucket(i - 1, limit, total) == Bucket(i, limit, total) {
        assert i - 1 in same;
      } else {
        forall j | 0 <= j < i ensures j !in same { BucketMonotone(j, i - 1, limit, total); }
        assert same == {};
      }
    } else {
      assert same == {};
    }
  }

  /** With no more rows than the limit, neighbouring rows never share a bucket. */
  lemma SparseStep(i: nat, limit: nat, total: nat)
    requires 0 < total <= limit && i > 0
    ensures Bucket(i - 1, limit, total) < Bucket(i, limit, total)
  {
    var b := Bucket(i - 1, limit, total);
    QuotientBounds((i - 1) * limit, total);
    QuotientBounds(i * limit, total);
    assert i * limit == (i - 1) * limit + limit;
    assert (b + 1) * total == b * total + total;
    if Bucket(i, limit, total) <= b { MulMonotone(Bucket(i, limit, total) + 1, b + 1, total); }
  }

  /** With at least as many rows as the limit, no bucket is skipped. */
  lemma DenseStep(i: nat, limit: nat, total: nat)
    requires 0 < limit <= total && i > 0
    ensures Bucket(i, limit, total) <= Bucket(i - 1, limit, total) + 1
  {
    var b := Bucket(i - 1, limit, total);
    QuotientBounds((i - 1) * limit, total);
    QuotientBounds(i * limit, total);
    assert i * limit == (i - 1) * limit + limit;
    assert (b + 2) * total == (b + 1) * total + total;
    if Bucket(i, limit, total) >= b + 2 { MulMonotone(b + 2, Bucket(i, limit, total), total); }
  }

  /** The row that opens bucket `b` is the smallest index not below `b * total / limit`. */
  lemma OpeningRow(i: nat, limit: nat, total: nat)
    requires 0 < limit < total
    requires i == 0 || Bucket(i - 1, limit, total) < Bucket(i, limit, total)
    ensures i == Pick(Bucket(i, limit, total), limit, total)
  {
    var b := Bucket(i, limit, total);
    QuotientBounds(i * limit, total);
    if i == 0 {
      assert b == 0 by { QuotientUnique(0, total, 0); }
      QuotientUnique(limit - 1, limit, 0);
      assert b * total + limit - 1 == limit - 1;
    } else {
      QuotientBounds((i - 1) * limit, total);
      assert i * limit == (i - 1) * limit + limit;
      MulMonotone(Bucket(i - 1, limit, total) + 1, b, total);
      assert (i + 1) * limit == i * limit + limit;
      QuotientUnique(b * total + limit - 1, limit, i);
    }
  }

  // ---- the chosen rows ------------------------------------------------------------------------

  ghost predicate PicksPrefix(chosen: seq<nat>, limit: nat, total: nat)
    requires limit > 0
  {
    forall k | 0 <= k < |chosen| :: chosen[k] == Pick(k, limit, total)
  }

  lemma {:induction false} ChosenSparse(upto: nat, limit: nat, total: nat)
    requires 0 < total <= limit && upto <= total
    ensures |Chosen(upto, limit, total)| == upto
    ensures PicksPrefix(Chosen(upto, limit, total), limit, total)
  {
    if upto == 0 {
    } else {
      ChosenSparse(upto - 1, limit, total);
      FirstOfBucket(upto - 1, limit, total);
      if upto > 1 { SparseStep(upto - 1, limit, total); }
    }
  }

  lemma {:induction false} ChosenDense(upto: nat, limit: nat, total: nat)
    requires 0 < limit < total && upto <= total
    ensures |Chosen(upto, limit, total)| == if upto == 0 then 0 else Bucket(upto - 1, limit, total) + 1
    ensures PicksPrefix(Chosen(upto, limit, total), limit, total)
  {
    if upto == 0 {
    } else {
      var i := upto - 1;
      ChosenDense(i, limit, total);
      FirstOfBucket(i, limit, total);
      if i > 0 {
        DenseStep(i, limit, total);
        BucketMonotone(i - 1, i, limit, total);
      } else {
        assert Bucket(0, limit, total) == 0 by { QuotientUnique(0, total, 0); }
      }
      if BucketRank(i, limit, total) == 1 { OpeningRow(i, limit, total); }
    }
  }

  lemma LastBucket(limit: nat, total: nat)
    requires 0 < limit <= total
    ensures Bucket(total - 1, limit, total) == limit - 1
  {
    assert (total - 1) * limit == (limit - 1) * total + (total - limit);
    assert (limit - 1 + 1) * total == (limit - 1) * total + total;
    QuotientUnique((total - 1) * limit, total, limit - 1);
  }

  lemma {:induction false} ChosenExact(total: nat, limit: nat)
    requires limit > 0
    ensures |Chosen(total, limit, total)| == if total <= limit then total else limit
    ensures PicksPrefix(Chosen(total, limit, total), limit, total)
  {
    if total == 0 {
    } else if total <= limit {
      ChosenSparse(total, limit, total);
    } else {
      ChosenDense(total, limit, total);
      LastBucket(limit, total);
    }
  }

  // ---- main results ---------------------------------------------------------------------------

  /** Exactly min(n, limit) rows come back, the k-th of them is row `Pick(k)`, the first is the
      oldest row, and the trailing LIMIT has nothing left to cut. */
  lemma {:induction false} SelectIsExact<T>(rows: seq<T>, limit: nat)
    requires limit > 0
    ensures |Chosen(|rows|, limit, |rows|)| <= limit
    ensures |Select(rows, limit)| == if |rows| <= limit then |rows| else limit
    ensures forall k | 0 <= k < |Select(rows, limit)| ::
              Pick(k, limit, |rows|) < |rows| && Select(rows, limit)[k] == rows[Pick(k, limit, |rows|)]
    ensures rows != [] ==> Select(rows, limit) != [] && Select(rows, limit)[0] == rows[0]
  {
    ChosenExact(|rows|, limit);
    ChosenInRange(|rows|, limit, |rows|);
    var chosen := Chosen(|rows|, limit, |rows|);
    assert forall k | 0 <= k < |chosen| :: chosen[k] == Pick(k, limit, |rows|);
    if rows != [] { PickZero(limit, |rows|); }
  }

  lemma PickZero(limit: nat, total: nat)
    requires limit > 0
    ensures Pick(0, limit, total) == 0
  {
    QuotientUnique(limit - 1, limit, 0);
  }

  /** Successive picks are floor(n/limit) or ceil(n/limit) rows apart, so they increase strictly and
      any two gaps differ by at most one. */
  lemma GapsEven(k: nat, limit: nat, total: nat)
    requires 0 < limit <= total
    ensures var gap := Pick(k + 1, limit, total) - Pick(k, limit, total);
            total / limit <= gap <= (total + limit - 1) / limit <= total / limit + 1
    ensures Pick(k, limit, total) < Pick(k + 1, limit, total)
  {
    var a, b := k * total + limit - 1, (k + 1) * total + limit - 1;
    assert b == a + total by { assert (k + 1) * total == k * total + total; }
    if total == limit {
      QuotientUnique(total, limit, 1);
      QuotientUnique(total + limit - 1, limit, 1);
    } else {
      SplitQuotient(a, total, limit);
      SplitQuotient(total, limit - 1, limit);
      QuotientUnique(limit - 1, limit, 0);
      PositiveQuotient(total, limit);
      if total % limit == 0 {
        ExactDivisor(a, total, limit);
        ExactDivisor(limit - 1, total, limit);
      } else {
        CeilAboveFloor(total, limit);
      }
    }
  }

  lemma {:induction false} PicksAscend(i: nat, j: nat, limit: nat, total: nat)
    requires 0 < limit && i < j
    ensures Pick(i, limit, total) < Pick(j, limit, total)
  {
    if total > limit {
      GapsEven(j - 1, limit, total);
      if i < j - 1 { PicksAscend(i, j - 1, limit, total); }
    }
  }

  lemma PositiveQuotient(t: nat, d: nat)
    requires 0 < d <= t
    ensures t / d >= 1
  {
    QuotientUnique(d, d, 1);
    SplitQuotient(t - d, d, d);
  }

  lemma SplitQuotient(a: nat, t: nat, d: nat)
    requires d > 0
    ensures a / d + t / d <= (a + t) / d <= a / d + t / d + 1
  {
    QuotientBounds(a, d);
    QuotientBounds(t, d);
    var q := a / d + t / d;
    assert q * d == (a / d) * d + (t / d) * d;
    assert (q + 2) * d == (a / d + 1) * d + (t / d + 1) * d;
    QuotientBounds(a + t, d);
    var r := (a + t) / d;
    if r < q { MulMonotone(r + 1, q, d); }
    if r > q + 1 { MulMonotone(q + 2, r, d); }
  }

  lemma ExactDivisor(a: nat, t: nat, d: nat)
    requires d > 0 && t % d == 0
    ensures (a + t) / d == a / d + t / d
  {
    QuotientBounds(a, d);
    var q := a / d + t / d;
    assert t == (t / d) * d;
    assert q * d == (a / d) * d + t;
    assert (q + 1) * d == (a / d + 1) * d + t;
    QuotientUnique(a + t, d, q);
  }

  lemma CeilAboveFloor(t: nat, d: nat)
    requires d > 0 && t % d != 0
    ensures (t + d - 1) / d == t / d + 1
  {
    var q := t / d;
    assert t == q * d + t % d;
    assert (q + 1) * d == q * d + d;
    assert (q + 2) * d == q * d + 2 * d;
    QuotientUnique(t + d - 1, d, q + 1);
  }
}
