/** Replay sampling: the query that thins a window of track points to one row per entity and time
    bucket, balances the buckets, and cuts the result at a limit. Every order the query leaves
    open (rows with equal times) is left open here too. */
module Replay {
  import opened Collections

  datatype Row = Row(time: int, entity: string, fix: nat)

  /** time_bucket, up to its origin. */
  function BucketOf(r: Row, w: nat): int
    requires w > 0
  {
    r.time / w
  }

  predicate SameCell(a: Row, b: Row, w: nat)
    requires w > 0
  {
    a.entity == b.entity && BucketOf(a, w) == BucketOf(b, w)
  }

  ghost predicate NewestFirst(rows: seq<Row>) {
    forall i, j | 0 <= i < j < |rows| :: rows[i].time >= rows[j].time
  }

  /** Some row of the sample stands for `r`: same cell, and at least as new. */
  ghost predicate Represented(sample: seq<Row>, r: Row, w: nat)
    requires w > 0
  {
    exists i :: 0 <= i < |sample| && SameCell(sample[i], r, w) && sample[i].time >= r.time
  }

  /** DISTINCT ON (entity_id, bucket) ... ORDER BY time DESC: one row per cell, the newest. The rows
      are listed newest first, the order in which ROW_NUMBER ranks them. */
  ghost predicate IsSample(rows: seq<Row>, w: nat, sample: seq<Row>)
    requires w > 0
  {
    && NewestFirst(sample)
    && (forall r <- sample :: r in rows)
    && (forall r <- rows :: Represented(sample, r, w))
    && (forall i, j | 0 <= i < j < |sample| :: !SameCell(sample[i], sample[j], w))
  }

  function BucketsOf(rows: seq<Row>, w: nat): set<int>
    requires w > 0
  {
    set r | r in rows :: BucketOf(r, w)
  }

  /** How many rows fall into the buckets `bs`. */
  function CountIn(rows: seq<Row>, w: nat, bs: set<int>): nat
    requires w > 0
    decreases rows
  {
    if rows == [] then 0
    else
      CountIn(rows[..|rows| - 1], w, bs) + (if BucketOf(rows[|rows| - 1], w) in bs then 1 else 0)
  }

  function Min(a: int, b: int): int { if a <= b then a else b }

  function Max(a: int, b: int): int { if a >= b then a else b }

  /** max_rows_per_bucket: GREATEST(1, CEIL(limit / total_buckets)). */
  function Cap(limit: nat, buckets: nat): nat {
    if buckets == 0 then 1 else Max(1, (limit + buckets - 1) / buckets)
  }

  /** The rows whose rank within their bucket is at most `cap`. */
  function Keep(sample: seq<Row>, w: nat, cap: nat): seq<Row>
    requires w > 0
    decreases sample
  {
    if sample == [] then []
    else
      var last := sample[|sample| - 1];
      Keep(sample[..|sample| - 1], w, cap) + (if CountIn(sample, w, {BucketOf(last, w)}) <= cap then [last] else [])
  }

  function CapOf(sample: seq<Row>, w: nat, limit: nat): nat
    requires w > 0
  {
    Cap(limit, |BucketsOf(sample, w)|)
  }

  /** The kept rows in the final ORDER BY time DESC, whose ties may differ from the ranking's. */
  ghost predicate IsOrdered(sample: seq<Row>, w: nat, cap: nat, final: seq<Row>)
    requires w > 0
  {
    NewestFirst(final) && multiset(final) == multiset(Keep(sample, w, cap))
  }

  ghost predicate IsFinal(sample: seq<Row>, w: nat, limit: nat, final: seq<Row>)
    requires w > 0
  {
    IsOrdered(sample, w, CapOf(sample, w, limit), final)
  }

  function Cut(final: seq<Row>, limit: nat): seq<Row> {
    if limit < |final| then final[..limit] else final
  }

  /** `answer` is a possible answer of the query over `rows`. */
  ghost predicate IsAnswer(rows: seq<Row>, w: nat, limit: nat, sample: seq<Row>, final: seq<Row>, answer: seq<Row>)
    requires w > 0
  {
    IsSample(rows, w, sample) && IsFinal(sample, w, limit, final) && answer == Cut(final, limit)
  }

  // ---------------------------------------------------------------------------
  // Counting by buckets
  // ---------------------------------------------------------------------------

  lemma {:induction false} CountSplit(rows: seq<Row>, w: nat, cs: set<int>, bs: set<int>)
    requires w > 0 && cs !! bs
    ensures CountIn(rows, w, cs + bs) == CountIn(rows, w, cs) + CountIn(rows, w, bs)
    decreases rows
  {
    if rows != [] {
      CountSplit(rows[..|rows| - 1], w, cs, bs);
    }
  }

  lemma {:induction false} CountNone(rows: seq<Row>, w: nat, bs: set<int>)
    requires w > 0 && forall r <- rows :: BucketOf(r, w) !in bs
    ensures CountIn(rows, w, bs) == 0
    decreases rows
  {
    if rows != [] {
      CountNone(rows[..|rows| - 1], w, bs);
    }
  }

  lemma {:induction false} CountAll(rows: seq<Row>, w: nat, bs: set<int>)
    requires w > 0 && forall r <- rows :: BucketOf(r, w) in bs
    ensures CountIn(rows, w, bs) == |rows|
    decreases rows
  {
    if rows != [] {
      CountAll(rows[..|rows| - 1], w, bs);
    }
  }

  lemma {:induction false} CountAppend(a: seq<Row>, b: seq<Row>, w: nat, bs: set<int>)
    requires w > 0
    ensures CountIn(a + b, w, bs) == CountIn(a, w, bs) + CountIn(b, w, bs)
    decreases b
  {
    if b == [] {
      assert a + b == a;
    } else {
      assert (a + b)[..|a + b| - 1] == a + b[..|b| - 1];
      CountAppend(a, b[..|b| - 1], w, bs);
    }
  }

  /** A count per bucket between `lo` and `hi` gives a total between lo and hi times the buckets. */
  lemma {:induction false} CountBounds(rows: seq<Row>, w: nat, bs: set<int>, lo: nat, hi: nat)
    requires w > 0 && forall b <- bs :: lo <= CountIn(rows, w, {b}) <= hi
    ensures lo * |bs| <= CountIn(rows, w, bs) <= hi * |bs|
    decreases bs
  {
    if bs == {} {
      CountNone(rows, w, bs);
    } else {
      var b := Choose(bs);
      CountBounds(rows, w, bs - {b}, lo, hi);
      CountSplit(rows, w, bs - {b}, {b});
      assert bs - {b} + {b} == bs;
      MulStep(lo, |bs| - 1);
      MulStep(hi, |bs| - 1);
    }
  }

  lemma {:induction false} MulStep(a: nat, n: nat)
    ensures a * (n + 1) == a * n + a
  {
  }

  lemma {:induction false} CountRemove(b: seq<Row>, i: nat, w: nat, bs: set<int>)
    requires w > 0 && i < |b|
    ensures multiset(b) == multiset(b[..i] + b[i + 1..]) + multiset{b[i]}
    ensures CountIn(b, w, bs) == CountIn(b[..i] + b[i + 1..], w, bs) + CountIn([b[i]], w, bs)
  {
    assert b == (b[..i] + [b[i]]) + b[i + 1..];
    CountAppend(b[..i], b[i + 1..], w, bs);
    CountAppend(b[..i] + [b[i]], b[i + 1..], w, bs);
    CountAppend(b[..i], [b[i]], w, bs);
  }

  /** Counting does not look at the order of the rows. */
  lemma {:induction false} CountPermutes(a: seq<Row>, b: seq<Row>, w: nat, bs: set<int>)
    requires w > 0 && multiset(a) == multiset(b)
    ensures CountIn(a, w, bs) == CountIn(b, w, bs)
    decreases a
  {
    if a == [] {
      assert |multiset(b)| == 0;
    } else {
      var k := |a| - 1;
      assert a[k] in multiset(b);
      var i :| 0 <= i < |b| && b[i] == a[k];
      assert a[..k] + a[k + 1..] == a[..k];
      CountRemove(a, k, w, bs);
      CountRemove(b, i, w, bs);
      assert multiset(a[..k]) == multiset(a) - multiset{a[k]};
      assert multiset(b[..i] + b[i + 1..]) == multiset(b) - multiset{a[k]};
      CountPermutes(a[..k], b[..i] + b[i + 1..], w, bs);
    }
  }

  /** Each bucket keeps its rows up to the cap. */
  lemma {:induction false} KeepCounts(sample: seq<Row>, w: nat, cap: nat, b: int)
    requires w > 0
    ensures CountIn(Keep(sample, w, cap), w, {b}) == Min(cap, CountIn(sample, w, {b}))
    decreases sample
  {
    if sample != [] {
      var front, last := sample[..|sample| - 1], sample[|sample| - 1];
      var kept := Keep(front, w, cap);
      KeepCounts(front, w, cap, b);
      assert kept + [] == kept && (kept + [last])[..|kept|] == kept;
    }
  }

  lemma {:induction false} KeepIsPart(sample: seq<Row>, w: nat, cap: nat)
    requires w > 0
    ensures multiset(Keep(sample, w, cap)) <= multiset(sample)
    decreases sample
  {
    if sample != [] {
      KeepIsPart(sample[..|sample| - 1], w, cap);
      assert sample == sample[..|sample| - 1] + [sample[|sample| - 1]];
    }
  }

  // ---------------------------------------------------------------------------
  // What an answer contains
  // ---------------------------------------------------------------------------

  ghost predicate OneRowPerCell(rows: seq<Row>, w: nat)
    requires w > 0
  {
    forall i, j | 0 <= i < j < |rows| :: !SameCell(rows[i], rows[j], w)
  }

  lemma {:induction false} PartOfSample(sample: seq<Row>, w: nat, part: seq<Row>)
    requires w > 0 && OneRowPerCell(sample, w) && multiset(part) <= multiset(sample)
    ensures OneRowPerCell(part, w) && forall r <- part :: r in sample
  {
    forall r <- part ensures r in sample {
      assert r in multiset(part);
    }
    forall i, j | 0 <= i < j < |part| ensures !SameCell(part[i], part[j], w) {
      if SameCell(part[i], part[j], w) {
        SameCellSameRow(sample, w, part[i], part[j]);
        TwiceInMultiset(part, i, j);
        OnceInMultiset(sample, w, part[i]);
      }
    }
  }

  lemma {:induction false} SameCellSameRow(s: seq<Row>, w: nat, p: Row, q: Row)
    requires w > 0 && OneRowPerCell(s, w) && p in s && q in s && SameCell(p, q, w)
    ensures p == q
  {
    var k :| 0 <= k < |s| && s[k] == p;
    var l :| 0 <= l < |s| && s[l] == q;
    assert SameCell(s[k], s[l], w) && SameCell(s[l], s[k], w);
    assert k == l;
  }

  lemma {:induction false} TwiceInMultiset(s: seq<Row>, i: nat, j: nat)
    requires i < j < |s| && s[i] == s[j]
    ensures multiset(s)[s[i]] >= 2
  {
    assert s == s[..i] + [s[i]] + s[i + 1..j] + [s[j]] + s[j + 1..];
  }

  lemma {:induction false} OnceInMultiset(s: seq<Row>, w: nat, r: Row)
    requires w > 0 && r in s && OneRowPerCell(s, w)
    ensures multiset(s)[r] == 1
  {
    var k :| 0 <= k < |s| && s[k] == r;
    assert s == s[..k] + [s[k]] + s[k + 1..];
    forall i | 0 <= i < k ensures s[..k][i] != r {
      assert !SameCell(s[i], s[k], w);
    }
    forall i | k < i < |s| ensures s[i] != r {
      assert !SameCell(s[k], s[i], w);
    }
    assert r !in s[..k] && r !in s[k + 1..];
    assert r !in multiset(s[..k]) && r !in multiset(s[k + 1..]);
  }

  lemma {:induction false} CutIsPrefix(final: seq<Row>, limit: nat)
    ensures Cut(final, limit) == final[..Min(limit, |final|)]
    ensures multiset(Cut(final, limit)) <= multiset(final)
  {
    assert final == Cut(final, limit) + final[|Cut(final, limit)|..];
  }

  lemma {:induction false} AnswerIsPart(sample: seq<Row>, w: nat, cap: nat, final: seq<Row>, limit: nat)
    requires w > 0 && IsOrdered(sample, w, cap, final)
    ensures multiset(Cut(final, limit)) <= multiset(final) <= multiset(sample)
    ensures forall r <- final :: r in sample
  {
    KeepIsPart(sample, w, cap);
    CutIsPrefix(final, limit);
    forall r <- final ensures r in sample {
      assert r in multiset(final);
    }
  }

  lemma {:induction false} SampleRowsAreNewest(rows: seq<Row>, w: nat, sample: seq<Row>, a: Row, r: Row)
    requires w > 0 && IsSample(rows, w, sample) && a in sample && r in rows && SameCell(a, r, w)
    ensures a.time >= r.time
  {
    var i :| 0 <= i < |sample| && SameCell(sample[i], r, w) && sample[i].time >= r.time;
    SameCellSameRow(sample, w, sample[i], a);
  }

  /** Every row of the answer is the newest of its entity in its bucket, no entity appears twice in
      a bucket, and the answer runs from newest to oldest. */
  lemma {:induction false} AnswerHoldsNewest(rows: seq<Row>, w: nat, limit: nat, sample: seq<Row>, final: seq<Row>, answer: seq<Row>)
    requires w > 0 && IsAnswer(rows, w, limit, sample, final, answer)
    ensures OneRowPerCell(answer, w) && NewestFirst(answer)
    ensures forall a <- answer :: a in rows
    ensures forall a <- answer, r <- rows :: SameCell(a, r, w) ==> a.time >= r.time
  {
    AnswerIsPart(sample, w, CapOf(sample, w, limit), final, limit);
    PartOfSample(sample, w, answer);
    forall a <- answer, r <- rows | SameCell(a, r, w) ensures a.time >= r.time {
      SampleRowsAreNewest(rows, w, sample, a, r);
    }
  }

  lemma {:induction false} CapBounds(limit: nat, buckets: nat)
    requires buckets > 0
    ensures limit <= Cap(limit, buckets) * buckets
    ensures limit > 0 ==> Cap(limit, buckets) * buckets <= limit + buckets - 1
  {
    var q := (limit + buckets - 1) / buckets;
    assert limit <= q * buckets <= limit + buckets - 1;
    if Cap(limit, buckets) != q {
      assert q == 0 && limit == 0;
    }
  }

  lemma {:induction false} KeptTotal(sample: seq<Row>, w: nat, cap: nat)
    requires w > 0
    ensures |Keep(sample, w, cap)| <= cap * |BucketsOf(sample, w)|
  {
    var kept, bs := Keep(sample, w, cap), BucketsOf(sample, w);
    KeepIsPart(sample, w, cap);
    forall r <- kept ensures BucketOf(r, w) in bs {
      assert r in multiset(kept);
      assert r in sample;
    }
    CountAll(kept, w, bs);
    forall b <- bs ensures 0 <= CountIn(kept, w, {b}) <= cap {
      KeepCounts(sample, w, cap, b);
    }
    CountBounds(kept, w, bs, 0, cap);
  }

  /** Fewer rows than there are buckets are lost to the final cut, none of them newer than a row
      that stays, and none at all when the limit is a multiple of the number of buckets. */
  lemma {:induction false} CutLosesLittle(sample: seq<Row>, w: nat, limit: nat, final: seq<Row>)
    requires w > 0 && limit > 0 && IsFinal(sample, w, limit, final)
    ensures |Cut(final, limit)| == Min(limit, |final|)
    ensures |BucketsOf(sample, w)| > 0 ==> |final| - |Cut(final, limit)| <= |BucketsOf(sample, w)| - 1
    ensures forall i, j | 0 <= i < |Cut(final, limit)| <= j < |final| :: Cut(final, limit)[i].time >= final[j].time
    ensures |BucketsOf(sample, w)| > 0 && limit % |BucketsOf(sample, w)| == 0 ==> Cut(final, limit) == final
  {
    var buckets := |BucketsOf(sample, w)|;
    FinalSize(sample, w, limit, final);
    if buckets > 0 {
      CapBounds(limit, buckets);
      if limit % buckets == 0 {
        ExactCap(limit, buckets);
      }
    }
  }

  lemma {:induction false} FinalSize(sample: seq<Row>, w: nat, limit: nat, final: seq<Row>)
    requires w > 0 && IsFinal(sample, w, limit, final)
    ensures |final| <= CapOf(sample, w, limit) * |BucketsOf(sample, w)|
  {
    KeptTotal(sample, w, CapOf(sample, w, limit));
    assert |final| == |multiset(final)|;
  }

  lemma {:induction false} ExactCap(limit: nat, buckets: nat)
    requires limit > 0 && buckets > 0 && limit % buckets == 0
    ensures Cap(limit, buckets) * buckets == limit
  {
    assert limit == limit / buckets * buckets;
    Squeeze(Cap(limit, buckets), limit / buckets, buckets);
  }

  lemma {:induction false} Squeeze(c: nat, q: nat, n: nat)
    requires n > 0 && q * n <= c * n <= q * n + n - 1
    ensures c == q
  {
    if c > q {
      MulMonotone(q + 1, c, n);
    } else if c < q {
      MulMonotone(c + 1, q, n);
    }
  }

  lemma {:induction false} MulMonotone(a: nat, b: nat, n: nat)
    requires a <= b
    ensures a * n <= b * n
  {
  }

  // ---------------------------------------------------------------------------
  // Which buckets an answer covers
  // ---------------------------------------------------------------------------

  function NewerThan(bs: set<int>, b: int): set<int> {
    set x | x in bs && x > b
  }

  /** Buckets that come first come first in every prefix. */
  lemma {:induction false} PrefixCount(f: seq<Row>, w: nat, bs: set<int>, m: nat)
    requires w > 0 && m <= |f|
    requires forall i, j | 0 <= i < j < |f| :: BucketOf(f[j], w) in bs ==> BucketOf(f[i], w) in bs
    ensures CountIn(f[..m], w, bs) == Min(m, CountIn(f, w, bs))
    decreases f
  {
    if m == |f| {
      assert f[..m] == f;
      CountAtMost(f, w, bs);
    } else {
      var front, last := f[..|f| - 1], f[|f| - 1];
      PrefixCount(front, w, bs, m);
      assert front[..m] == f[..m];
      if BucketOf(last, w) in bs {
        CountAll(front, w, bs);
      }
    }
  }

  lemma {:induction false} CountAtMost(rows: seq<Row>, w: nat, bs: set<int>)
    requires w > 0
    ensures CountIn(rows, w, bs) <= |rows|
    decreases rows
  {
    if rows != [] {
      CountAtMost(rows[..|rows| - 1], w, bs);
    }
  }

  lemma {:induction false} LaterBucketIsOlder(a: int, b: int, w: nat)
    requires w > 0 && a >= b
    ensures a / w >= b / w
  {
    if a / w < b / w {
      MulMonotoneInt(a / w + 1, b / w, w);
    }
  }

  lemma {:induction false} MulMonotoneInt(a: int, b: int, n: nat)
    requires a <= b
    ensures a * n <= b * n
  {
  }

  lemma {:induction false} NewerComeFirst(f: seq<Row>, w: nat, all: set<int>, b: int)
    requires w > 0 && NewestFirst(f) && forall r <- f :: BucketOf(r, w) in all
    ensures forall i, j | 0 <= i < j < |f| ::
              BucketOf(f[j], w) in NewerThan(all, b) ==> BucketOf(f[i], w) in NewerThan(all, b)
    ensures forall i, j | 0 <= i < j < |f| ::
              BucketOf(f[j], w) in NewerThan(all, b) + {b} ==> BucketOf(f[i], w) in NewerThan(all, b) + {b}
  {
    forall i, j | 0 <= i < j < |f| ensures BucketOf(f[i], w) >= BucketOf(f[j], w) {
      LaterBucketIsOlder(f[i].time, f[j].time, w);
    }
    forall i | 0 <= i < |f| ensures BucketOf(f[i], w) in all {
      assert f[i] in f;
    }
  }

  lemma {:induction false} PrefixOfBucket(f: seq<Row>, w: nat, all: set<int>, b: int, m: nat)
    requires w > 0 && NewestFirst(f) && m <= |f| && forall r <- f :: BucketOf(r, w) in all
    ensures var n, c := CountIn(f, w, NewerThan(all, b)), CountIn(f, w, {b});
            n + c <= |f| && CountIn(f[..m], w, {b}) == Min(m, n + c) - Min(m, n)
  {
    var newer := NewerThan(all, b);
    NewerComeFirst(f, w, all, b);
    PrefixCount(f, w, newer, m);
    PrefixCount(f, w, newer + {b}, m);
    CountSplit(f, w, newer, {b});
    CountSplit(f[..m], w, newer, {b});
    CountAtMost(f, w, newer + {b});
  }

  lemma {:induction false} FinalCounts(sample: seq<Row>, w: nat, cap: nat, final: seq<Row>, b: int, bs: set<int>)
    requires w > 0 && IsOrdered(sample, w, cap, final)
    ensures CountIn(final, w, bs) == CountIn(Keep(sample, w, cap), w, bs)
    ensures CountIn(final, w, {b}) == Min(cap, CountIn(sample, w, {b}))
  {
    CountPermutes(final, Keep(sample, w, cap), w, bs);
    CountPermutes(final, Keep(sample, w, cap), w, {b});
    KeepCounts(sample, w, cap, b);
  }

  /** The rows kept of the buckets newer than `b`. */
  function KeptAhead(sample: seq<Row>, w: nat, cap: nat, b: int): nat
    requires w > 0
  {
    CountIn(Keep(sample, w, cap), w, NewerThan(BucketsOf(sample, w), b))
  }

  /** How many rows an answer holds of one bucket: what the cap leaves of it, as far as the limit is
      not used up by the buckets newer than it. */
  lemma {:induction false} RowsOfBucket(sample: seq<Row>, w: nat, cap: nat, limit: nat, final: seq<Row>, b: int)
    requires w > 0 && IsOrdered(sample, w, cap, final)
    ensures CountIn(Cut(final, limit), w, {b}) ==
            Min(Min(cap, CountIn(sample, w, {b})),
                Max(0, limit - KeptAhead(sample, w, cap, b)))
  {
    FinalBuckets(sample, w, cap, final);
    FinalAhead(sample, w, cap, final, b);
    CutCounts(final, w, limit, BucketsOf(sample, w), b, Min(cap, CountIn(sample, w, {b})), KeptAhead(sample, w, cap, b));
  }

  lemma {:induction false} FinalAhead(sample: seq<Row>, w: nat, cap: nat, final: seq<Row>, b: int)
    requires w > 0 && IsOrdered(sample, w, cap, final)
    ensures CountIn(final, w, NewerThan(BucketsOf(sample, w), b)) == KeptAhead(sample, w, cap, b)
    ensures CountIn(final, w, {b}) == Min(cap, CountIn(sample, w, {b}))
  {
    FinalCounts(sample, w, cap, final, b, NewerThan(BucketsOf(sample, w), b));
  }

  lemma {:induction false} CutCounts(f: seq<Row>, w: nat, limit: nat, all: set<int>, b: int, c: nat, n: nat)
    requires w > 0 && NewestFirst(f) && forall r <- f :: BucketOf(r, w) in all
    requires c == CountIn(f, w, {b}) && n == CountIn(f, w, NewerThan(all, b))
    ensures CountIn(Cut(f, limit), w, {b}) == Min(c, Max(0, limit - n))
  {
    PrefixOfBucket(f, w, all, b, Min(limit, |f|));
    CutIsPrefix(f, limit);
  }

  lemma {:induction false} FinalBuckets(sample: seq<Row>, w: nat, cap: nat, final: seq<Row>)
    requires w > 0 && IsOrdered(sample, w, cap, final)
    ensures forall r <- final :: BucketOf(r, w) in BucketsOf(sample, w)
  {
    AnswerIsPart(sample, w, cap, final, 0);
  }

  lemma {:induction false} CountedIsIn(rows: seq<Row>, w: nat, b: int)
    requires w > 0
    ensures CountIn(rows, w, {b}) > 0 <==> b in BucketsOf(rows, w)
    decreases rows
  {
    if rows != [] {
      var front, last := rows[..|rows| - 1], rows[|rows| - 1];
      CountedIsIn(front, w, b);
      assert rows == front + [last];
      assert BucketsOf(rows, w) == BucketsOf(front, w) + {BucketOf(last, w)};
    }
  }

  /** A bucket of the window is in the answer if and only if the rows kept of the buckets newer than
      it leave room under the limit. */
  lemma {:induction false} BucketCoveredExactly(rows: seq<Row>, w: nat, limit: nat, sample: seq<Row>, final: seq<Row>, answer: seq<Row>, b: int)
    requires w > 0 && IsAnswer(rows, w, limit, sample, final, answer) && b in BucketsOf(rows, w)
    ensures b in BucketsOf(answer, w) <==>
            KeptAhead(sample, w, CapOf(sample, w, limit), b) < limit
  {
    SampleHasBuckets(rows, w, sample);
    BucketInCut(sample, w, CapOf(sample, w, limit), limit, final, b);
  }

  lemma {:induction false} BucketInCut(sample: seq<Row>, w: nat, cap: nat, limit: nat, final: seq<Row>, b: int)
    requires w > 0 && cap > 0 && IsOrdered(sample, w, cap, final) && b in BucketsOf(sample, w)
    ensures b in BucketsOf(Cut(final, limit), w) <==>
            KeptAhead(sample, w, cap, b) < limit
  {
    CountedIsIn(Cut(final, limit), w, b);
    CountedIsIn(sample, w, b);
    CountedInCut(sample, w, cap, limit, final, b);
  }

  lemma {:induction false} CountedInCut(sample: seq<Row>, w: nat, cap: nat, limit: nat, final: seq<Row>, b: int)
    requires w > 0 && cap > 0 && IsOrdered(sample, w, cap, final) && CountIn(sample, w, {b}) > 0
    ensures CountIn(Cut(final, limit), w, {b}) > 0 <==> KeptAhead(sample, w, cap, b) < limit
  {
    var c, n := CountIn(sample, w, {b}), KeptAhead(sample, w, cap, b);
    RowsOfBucket(sample, w, cap, limit, final, b);
    assert CountIn(Cut(final, limit), w, {b}) == Min(Min(cap, c), Max(0, limit - n));
  }

  lemma {:induction false} SampleHasBuckets(rows: seq<Row>, w: nat, sample: seq<Row>)
    requires w > 0 && IsSample(rows, w, sample)
    ensures BucketsOf(sample, w) == BucketsOf(rows, w)
  {
    forall r <- rows ensures BucketOf(r, w) in BucketsOf(sample, w) {
      var i :| 0 <= i < |sample| && SameCell(sample[i], r, w) && sample[i].time >= r.time;
      assert sample[i] in sample;
    }
  }

  /** When the limit is a positive multiple of the number of buckets, every bucket is covered. */
  lemma {:induction false} MultipleCoversAll(rows: seq<Row>, w: nat, limit: nat, sample: seq<Row>, final: seq<Row>, answer: seq<Row>)
    requires w > 0 && limit > 0 && IsAnswer(rows, w, limit, sample, final, answer)
    requires |BucketsOf(rows, w)| > 0 && limit % |BucketsOf(rows, w)| == 0
    ensures BucketsOf(answer, w) == BucketsOf(rows, w)
  {
    SampleHasBuckets(rows, w, sample);
    CutLosesLittle(sample, w, limit, final);
    forall b ensures b in BucketsOf(answer, w) <==> b in BucketsOf(sample, w) {
      CountedIsIn(answer, w, b);
      CountedIsIn(sample, w, b);
      FinalCounts(sample, w, CapOf(sample, w, limit), final, b, {b});
    }
  }

  /** In a dense window, one whose buckets all hold at least `cap` entities, the k-th newest bucket
      is covered if and only if k * cap is below the limit. */
  lemma {:induction false} DenseCoverage(rows: seq<Row>, w: nat, limit: nat, sample: seq<Row>, final: seq<Row>, answer: seq<Row>, b: int)
    requires w > 0 && IsAnswer(rows, w, limit, sample, final, answer) && b in BucketsOf(rows, w)
    requires forall x <- BucketsOf(sample, w) :: CountIn(sample, w, {x}) >= CapOf(sample, w, limit)
    ensures b in BucketsOf(answer, w) <==>
            CapOf(sample, w, limit) * |NewerThan(BucketsOf(rows, w), b)| < limit
  {
    var cap, newer := CapOf(sample, w, limit), NewerThan(BucketsOf(sample, w), b);
    SampleHasBuckets(rows, w, sample);
    BucketCoveredExactly(rows, w, limit, sample, final, answer, b);
    forall x <- newer ensures cap <= CountIn(Keep(sample, w, cap), w, {x}) <= cap {
      KeepCounts(sample, w, cap, x);
    }
    CountBounds(Keep(sample, w, cap), w, newer, cap, cap);
  }

  /** A dense window fills its answer: exactly as many rows as the limit allows, or none at all. */
  lemma {:induction false} DenseAnswerIsFull(rows: seq<Row>, w: nat, limit: nat, sample: seq<Row>, final: seq<Row>, answer: seq<Row>)
    requires w > 0 && IsAnswer(rows, w, limit, sample, final, answer)
    requires forall x <- BucketsOf(sample, w) :: CountIn(sample, w, {x}) >= CapOf(sample, w, limit)
    ensures |answer| == if rows == [] then 0 else limit
  {
    var cap, bs := CapOf(sample, w, limit), BucketsOf(sample, w);
    var kept := Keep(sample, w, cap);
    KeepIsPart(sample, w, cap);
    forall r <- kept ensures BucketOf(r, w) in bs {
      assert r in multiset(kept);
      assert r in sample;
    }
    CountAll(kept, w, bs);
    forall b <- bs ensures cap <= CountIn(kept, w, {b}) <= cap {
      KeepCounts(sample, w, cap, b);
    }
    CountBounds(kept, w, bs, cap, cap);
    assert |final| == |multiset(final)| == |multiset(kept)| == |kept|;
    if sample != [] {
      assert sample[0] in rows;
    }
    if rows != [] {
      SampleHasBuckets(rows, w, sample);
      assert BucketOf(rows[0], w) in bs;
      CapBounds(limit, |bs|);
    }
  }

  /** The promise of covering the whole interval fails: nine buckets with two or more entities each
      and a limit of 10 give an answer without the four oldest buckets. */
  lemma {:induction false} NineBucketsFourLost(rows: seq<Row>, w: nat, sample: seq<Row>, final: seq<Row>, answer: seq<Row>, b: int)
    requires w > 0 && IsAnswer(rows, w, 10, sample, final, answer) && b in BucketsOf(rows, w)
    requires |BucketsOf(rows, w)| == 9 && forall x <- BucketsOf(sample, w) :: CountIn(sample, w, {x}) >= 2
    ensures b in BucketsOf(answer, w) <==> |NewerThan(BucketsOf(rows, w), b)| < 5
  {
    SampleHasBuckets(rows, w, sample);
    DenseCoverage(rows, w, 10, sample, final, answer, b);
  }

  // ---------------------------------------------------------------------------
  // The query always has an answer
  // ---------------------------------------------------------------------------

  function Age(r: Row): int {
    -r.time
  }

  predicate HasCell(rows: seq<Row>, r: Row, w: nat)
    requires w > 0
  {
    exists i :: 0 <= i < |rows| && SameCell(rows[i], r, w)
  }

  /** The first row of each cell. */
  function FirstOfCells(rows: seq<Row>, w: nat): seq<Row>
    requires w > 0
    decreases rows
  {
    if rows == [] then []
    else
      var before, last := FirstOfCells(rows[..|rows| - 1], w), rows[|rows| - 1];
      if HasCell(before, last, w) then before else before + [last]
  }

  function Sample(rows: seq<Row>, w: nat): seq<Row>
    requires w > 0
  {
    FirstOfCells(SortBy(Age, rows), w)
  }

  lemma {:induction false} RepresentedGrows(sample: seq<Row>, last: Row, r: Row, w: nat)
    requires w > 0 && (Represented(sample, r, w) || r == last)
    ensures Represented(sample + [last], r, w)
  {
    var after := sample + [last];
    if Represented(sample, r, w) {
      var i :| 0 <= i < |sample| && SameCell(sample[i], r, w) && sample[i].time >= r.time;
      assert after[i] == sample[i];
    } else {
      assert after[|sample|] == r;
    }
  }

  lemma {:induction false} SampleStays(rows: seq<Row>, w: nat, sample: seq<Row>, last: Row)
    requires w > 0 && IsSample(rows, w, sample) && HasCell(sample, last, w)
    requires forall r <- rows :: r.time >= last.time
    ensures IsSample(rows + [last], w, sample)
  {
    var i :| 0 <= i < |sample| && SameCell(sample[i], last, w);
    assert sample[i] in sample;
    assert Represented(sample, last, w);
    assert forall r <- rows + [last] :: r in rows || r == last;
  }

  lemma {:induction false} SampleGrows(rows: seq<Row>, w: nat, sample: seq<Row>, last: Row)
    requires w > 0 && IsSample(rows, w, sample) && !HasCell(sample, last, w)
    requires forall r <- rows :: r.time >= last.time
    ensures IsSample(rows + [last], w, sample + [last])
  {
    forall r <- rows + [last] ensures Represented(sample + [last], r, w) {
      assert r in rows || r == last;
      RepresentedGrows(sample, last, r, w);
    }
    forall i | 0 <= i < |sample| ensures sample[i].time >= last.time {
      assert sample[i] in sample;
    }
  }

  lemma {:induction false} FirstOfCellsSamples(rows: seq<Row>, w: nat)
    requires w > 0 && NewestFirst(rows)
    ensures IsSample(rows, w, FirstOfCells(rows, w))
    decreases rows
  {
    if rows != [] {
      var front, last := rows[..|rows| - 1], rows[|rows| - 1];
      var before := FirstOfCells(front, w);
      FirstOfCellsSamples(front, w);
      assert rows == front + [last];
      forall r <- front ensures r.time >= last.time {
      }
      if HasCell(before, last, w) {
        SampleStays(front, w, before, last);
      } else {
        SampleGrows(front, w, before, last);
      }
    }
  }

  lemma {:induction false} KeepSorted(sample: seq<Row>, w: nat, cap: nat)
    requires w > 0 && NewestFirst(sample)
    ensures NewestFirst(Keep(sample, w, cap))
    decreases sample
  {
    if sample != [] {
      var front := sample[..|sample| - 1];
      KeepSorted(front, w, cap);
      KeepIsPart(front, w, cap);
      forall r <- Keep(front, w, cap) ensures r.time >= sample[|sample| - 1].time {
        assert r in multiset(Keep(front, w, cap));
        assert r in front;
      }
    }
  }

  /** One answer, computed. */
  function Query(rows: seq<Row>, w: nat, limit: nat): seq<Row>
    requires w > 0
  {
    Cut(Keep(Sample(rows, w), w, CapOf(Sample(rows, w), w, limit)), limit)
  }

  ghost predicate Answers(rows: seq<Row>, w: nat, limit: nat, answer: seq<Row>)
    requires w > 0
  {
    exists sample, final :: IsAnswer(rows, w, limit, sample, final, answer)
  }

  lemma {:induction false} QueryAnswers(rows: seq<Row>, w: nat, limit: nat)
    requires w > 0
    ensures Answers(rows, w, limit, Query(rows, w, limit))
  {
    var sorted, sample := SortBy(Age, rows), Sample(rows, w);
    SortBySorts(Age, rows);
    forall i, j | 0 <= i < j < |sorted| ensures sorted[i].time >= sorted[j].time {
      assert Age(sorted[i]) <= Age(sorted[j]);
    }
    FirstOfCellsSamples(sorted, w);
    forall r ensures r in sorted <==> r in rows {
      SortByMember(Age, rows, r);
    }
    var final := Keep(sample, w, CapOf(sample, w, limit));
    KeepSorted(sample, w, CapOf(sample, w, limit));
    assert IsSample(rows, w, sample);
    assert IsAnswer(rows, w, limit, sample, final, Query(rows, w, limit));
  }

  /** Two entities in each of nine buckets of width one. */
  function NineBuckets(): (rows: seq<Row>)
    ensures |rows| == 18
    ensures forall i | 0 <= i < 18 :: rows[i] == Row(i / 2, if i % 2 == 0 then "a" else "b", i)
  {
    seq(18, i requires 0 <= i < 18 => Row(i / 2, if i % 2 == 0 then "a" else "b", i))
  }

  lemma {:induction false} CountOne(rows: seq<Row>, w: nat, b: int, i: nat)
    requires w > 0 && i < |rows| && BucketOf(rows[i], w) == b
    ensures CountIn(rows, w, {b}) >= 1
    decreases rows
  {
    if i < |rows| - 1 {
      CountOne(rows[..|rows| - 1], w, b, i);
    }
  }

  lemma {:induction false} CountTwo(rows: seq<Row>, w: nat, b: int, i: nat, j: nat)
    requires w > 0 && i < j < |rows| && BucketOf(rows[i], w) == b && BucketOf(rows[j], w) == b
    ensures CountIn(rows, w, {b}) >= 2
    decreases rows
  {
    if j < |rows| - 1 {
      CountTwo(rows[..|rows| - 1], w, b, i, j);
    } else {
      CountOne(rows[..|rows| - 1], w, b, i);
    }
  }

  lemma {:induction false} TwoEntitiesCounted(rows: seq<Row>, w: nat, sample: seq<Row>, p: Row, q: Row)
    requires w > 0 && IsSample(rows, w, sample) && p in rows && q in rows
    requires p.entity != q.entity && BucketOf(p, w) == BucketOf(q, w)
    ensures CountIn(sample, w, {BucketOf(p, w)}) >= 2
  {
    assert Represented(sample, p, w) && Represented(sample, q, w);
    var i :| 0 <= i < |sample| && SameCell(sample[i], p, w) && sample[i].time >= p.time;
    var j :| 0 <= j < |sample| && SameCell(sample[j], q, w) && sample[j].time >= q.time;
    if i < j {
      CountTwo(sample, w, BucketOf(p, w), i, j);
    } else {
      CountTwo(sample, w, BucketOf(p, w), j, i);
    }
  }

  lemma {:induction false} BucketsOfNine()
    ensures BucketsOf(NineBuckets(), 1) == Range(0, 9)
  {
    var rows := NineBuckets();
    forall r <- rows ensures 0 <= BucketOf(r, 1) < 9 {
    }
    forall x | 0 <= x < 9 ensures x in BucketsOf(rows, 1) {
      assert rows[2 * x] in rows && BucketOf(rows[2 * x], 1) == x;
    }
  }

  lemma {:induction false} NineAreDense(sample: seq<Row>, x: int)
    requires IsSample(NineBuckets(), 1, sample) && 0 <= x < 9
    ensures CountIn(sample, 1, {x}) >= 2
  {
    var rows := NineBuckets();
    assert rows[2 * x] in rows && rows[2 * x + 1] in rows;
    assert rows[2 * x].entity == "a" && rows[2 * x + 1].entity == "b";
    TwoEntitiesCounted(rows, 1, sample, rows[2 * x], rows[2 * x + 1]);
  }

  lemma {:induction false} AllNineDense(sample: seq<Row>)
    requires IsSample(NineBuckets(), 1, sample)
    ensures BucketsOf(sample, 1) == BucketsOf(NineBuckets(), 1) == Range(0, 9)
    ensures forall x <- BucketsOf(sample, 1) :: CountIn(sample, 1, {x}) >= 2
  {
    BucketsOfNine();
    SampleHasBuckets(NineBuckets(), 1, sample);
    forall x <- BucketsOf(sample, 1) ensures CountIn(sample, 1, {x}) >= 2 {
      NineAreDense(sample, x);
    }
  }

  lemma {:induction false} NewerInRange(b: int)
    requires 0 <= b < 9
    ensures |NewerThan(Range(0, 9), b)| == 8 - b
  {
    assert NewerThan(Range(0, 9), b) == Range(b + 1, 9);
  }

  /** The concrete input: of these eighteen rows and a limit of 10, every answer covers exactly the
      buckets 4 to 8. */
  lemma {:induction false} EighteenRowsFourLost(sample: seq<Row>, final: seq<Row>, answer: seq<Row>)
    requires IsAnswer(NineBuckets(), 1, 10, sample, final, answer)
    ensures BucketsOf(answer, 1) == Range(4, 9)
  {
    AllNineDense(sample);
    AnswerHoldsNewest(NineBuckets(), 1, 10, sample, final, answer);
    forall b | 0 <= b < 9 ensures b in BucketsOf(answer, 1) <==> 4 <= b {
      NewerInRange(b);
      NineBucketsFourLost(NineBuckets(), 1, sample, final, answer, b);
    }
    RangeByMembers(BucketsOf(answer, 1));
  }

  lemma {:induction false} RangeByMembers(bs: set<int>)
    requires bs <= Range(0, 9) && forall b | 0 <= b < 9 :: b in bs <==> 4 <= b
    ensures bs == Range(4, 9)
  {
  }

  // ---------------------------------------------------------------------------
  // The request
  // ---------------------------------------------------------------------------

  // Times are in microseconds, the resolution of the timestamps.
  const SECOND: nat := 1000000
  const HOUR: nat := 3600 * SECOND

  /** The default of the setting that bounds a window, in hours. */
  const DEFAULT_MAX_HOURS: nat := 168

  datatype Response = BadRequest | Rows(rows: seq<Row>)

  /** The bucket width for a window of length `duration`: never above five minutes, and never so
      small that a window of up to twelve hours has more than 240 whole buckets, or one admissible by
      default more than 2016. */
  function BucketWidth(duration: nat): (w: nat)
    ensures 30 * SECOND <= w <= 300 * SECOND
    ensures duration <= 12 * HOUR ==> duration <= 240 * w
    ensures duration <= DEFAULT_MAX_HOURS * HOUR ==> duration <= 2016 * w
  {
    if duration <= HOUR then 30 * SECOND
    else if duration <= 2 * HOUR then 60 * SECOND
    else if duration <= 6 * HOUR then 120 * SECOND
    else if duration <= 12 * HOUR then 180 * SECOND
    else 300 * SECOND
  }

  /** Where the width grows: just above one, two, six and twelve hours, and nowhere else. */
  lemma {:induction false} WidthGrowsExactly(duration: nat)
    ensures BucketWidth(duration) in {30_000_000, 60_000_000, 120_000_000, 180_000_000, 300_000_000}
    ensures BucketWidth(duration) > 30_000_000 <==> duration > 3_600_000_000
    ensures BucketWidth(duration) > 60_000_000 <==> duration > 7_200_000_000
    ensures BucketWidth(duration) > 120_000_000 <==> duration > 21_600_000_000
    ensures BucketWidth(duration) > 180_000_000 <==> duration > 43_200_000_000
  {
  }

  function InWindow(tracks: seq<Row>, start: int, end: int): seq<Row> {
    if tracks == [] then []
    else (if start <= tracks[0].time <= end then [tracks[0]] else []) + InWindow(tracks[1..], start, end)
  }

  /** The query sees each row whose time lies in the window, as often as it is there, and no other. */
  lemma {:induction false} InWindowExactly(tracks: seq<Row>, start: int, end: int, r: Row)
    ensures multiset(InWindow(tracks, start, end))[r] == if start <= r.time <= end then multiset(tracks)[r] else 0
  {
    if tracks != [] {
      assert tracks == [tracks[0]] + tracks[1..];
      InWindowExactly(tracks[1..], start, end, r);
    }
  }

  lemma {:induction false} InWindowMember(tracks: seq<Row>, start: int, end: int, r: Row)
    ensures r in InWindow(tracks, start, end) <==> r in tracks && start <= r.time <= end
  {
    InWindowExactly(tracks, start, end, r);
    assert r in InWindow(tracks, start, end) <==> r in multiset(InWindow(tracks, start, end));
    assert r in tracks <==> r in multiset(tracks);
  }

  lemma {:induction false} KeepHoldsFirst(sample: seq<Row>, w: nat, cap: nat)
    requires w > 0 && cap > 0 && sample != []
    ensures sample[0] in Keep(sample, w, cap)
    decreases |sample|
  {
    if |sample| == 1 {
      assert sample[..0] == [] && Keep([], w, cap) == [];
      assert CountIn(sample, w, {BucketOf(sample[0], w)}) == 1;
    } else {
      KeepHoldsFirst(sample[..|sample| - 1], w, cap);
    }
  }

  /** Whatever is cut, the answer starts at the newest instant of the window, and it is empty only
      when the window is. */
  lemma {:induction false} AnswerStartsNewest(rows: seq<Row>, w: nat, limit: nat, sample: seq<Row>, final: seq<Row>, answer: seq<Row>)
    requires w > 0 && limit > 0 && IsAnswer(rows, w, limit, sample, final, answer) && rows != []
    ensures answer != [] && forall r <- rows :: r.time <= answer[0].time
  {
    var kept := Keep(sample, w, CapOf(sample, w, limit));
    assert Represented(sample, rows[0], w);
    KeepHoldsFirst(sample, w, CapOf(sample, w, limit));
    assert sample[0] in multiset(kept) && sample[0] in multiset(final);
    var k :| 0 <= k < |final| && final[k] == sample[0];
    assert answer[0] == final[0] && final[0].time >= sample[0].time;
    forall r <- rows ensures r.time <= answer[0].time {
      assert Represented(sample, r, w);
      var i :| 0 <= i < |sample| && SameCell(sample[i], r, w) && sample[i].time >= r.time;
    }
  }

  /** What an answer over the rows in the window is, in terms of all rows: rows of the window, each the
      newest of its entity in its bucket there, newest first, starting at the newest instant of the
      window, and none only if there are none. */
  ghost predicate Shows(rows: seq<Row>, start: int, end: int, w: nat, answer: seq<Row>)
    requires w > 0
  {
    && NewestFirst(answer)
    && (forall x <- answer :: x in rows && start <= x.time <= end)
    && (forall x <- answer, y <- rows :: start <= y.time <= end && y.entity == x.entity && y.time / w == x.time / w
          ==> y.time <= x.time)
    && (forall y <- rows :: start <= y.time <= end ==> answer != [] && y.time <= answer[0].time)
  }

  lemma {:induction false} AnswerShows(tracks: seq<Row>, start: int, end: int, w: nat, limit: nat, answer: seq<Row>)
    requires w > 0 && limit > 0 && Answers(InWindow(tracks, start, end), w, limit, answer)
    ensures Shows(tracks, start, end, w, answer) && |answer| <= limit
  {
    var rows := InWindow(tracks, start, end);
    var sample, final :| IsAnswer(rows, w, limit, sample, final, answer);
    AnswerHoldsNewest(rows, w, limit, sample, final, answer);
    forall r: Row ensures r in rows <==> r in tracks && start <= r.time <= end {
      InWindowMember(tracks, start, end, r);
    }
    forall x <- answer, y <- tracks | start <= y.time <= end && y.entity == x.entity && y.time / w == x.time / w
      ensures y.time <= x.time
    {
      assert SameCell(x, y, w);
    }
    forall y <- tracks | start <= y.time <= end ensures answer != [] && y.time <= answer[0].time {
      assert y in rows;
      AnswerStartsNewest(rows, w, limit, sample, final, answer);
    }
  }

  /** The endpoint, once its times are parsed; the two maxima come from the settings. */
  method ReplayTracks(tracks: seq<Row>, start: int, end: int, limit: int, maxLimit: int, maxHours: int)
    returns (r: Response)
    ensures r.BadRequest? <==>
            limit > maxLimit || limit <= 0 || end <= start || end - start > maxHours * HOUR
    ensures r.Rows? ==>
            Answers(InWindow(tracks, start, end), BucketWidth(end - start), limit, r.rows)
    ensures r.Rows? ==> Shows(tracks, start, end, BucketWidth(end - start), r.rows) && |r.rows| <= limit
  {
    if limit > maxLimit || limit <= 0 {
      return BadRequest;
    }
    if end <= start || end - start > maxHours * HOUR {
      return BadRequest;
    }
    var w := BucketWidth(end - start);
    var rows := InWindow(tracks, start, end);
    QueryAnswers(rows, w, limit);
    AnswerShows(tracks, start, end, w, limit, Query(rows, w, limit));
    r := Rows(Query(rows, w, limit));
  }
}
