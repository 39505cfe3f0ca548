/** The sparkline of `foldKnowledgeRampAxis` (apps/dashboard/lib/ledger-client.ts): an array of one-minute
    buckets over the last hour, filled in place from the rows the query returned. */
module KnowledgeRamp {

  const BUCKETS: nat := 60
  const MINUTE_MS: nat := 60000
  const WINDOW_MS: nat := 3600000

  /** Rows of age `age` belong to bucket `b`; the last bucket also takes rows from the future. */
  predicate Belongs(age: int, b: nat) {
    && age < (60 - b) * 60_000
    && (b == 59 || (59 - b) * 60_000 <= age)
  }

  /** How many of the ages belong to bucket `b`. */
  function InBucket(ages: seq<int>, b: nat): nat {
    if ages == [] then 0
    else InBucket(ages[..|ages|-1], b) + if Belongs(ages[|ages|-1], b) then 1 else 0
  }

  function InWindow(ages: seq<int>): nat {
    if ages == [] then 0
    else InWindow(ages[..|ages|-1]) + if ages[|ages|-1] < 60 * 60_000 then 1 else 0
  }

  function Sum(xs: seq<nat>): nat {
    if xs == [] then 0 else Sum(xs[..|xs|-1]) + xs[|xs|-1]
  }

  method CountInto(sparkline: array<nat>, age: int)
    requires sparkline.Length == BUCKETS
    modifies sparkline
    ensures forall b :: 0 <= b < BUCKETS ==> sparkline[b] == old(sparkline[b]) + if Belongs(age, b) then 1 else 0
  {
    if age < 0 {
      sparkline[BUCKETS - 1] := sparkline[BUCKETS - 1] + 1;
    } else if age < WINDOW_MS {
      var minutesOld := age / MINUTE_MS;
      var latest := if BUCKETS - 1 - minutesOld < BUCKETS - 1 then BUCKETS - 1 - minutesOld else BUCKETS - 1;
      var idx := if latest > 0 then latest else 0;
      sparkline[idx] := sparkline[idx] + 1;
    }
  }

  method FoldSparkline(now: int, times: seq<int>) returns (sparkline: array<nat>)
    ensures fresh(sparkline) && sparkline.Length == 60
    ensures forall b :: 0 <= b < 60 ==> sparkline[b] == InBucket(Ages(now, times), b)
  {
    sparkline := new nat[BUCKETS](_ => 0);
    ghost var ages := Ages(now, times);
    for i := 0 to |times|
      invariant fresh(sparkline)
      invariant forall b :: 0 <= b < BUCKETS ==> sparkline[b] == InBucket(ages[..i], b)
    {
      assert ages[..i+1][..i] == ages[..i];
      CountInto(sparkline, now - times[i]);
    }
    assert ages[..|times|] == ages;
  }

  function Ages(now: int, times: seq<int>): (r: seq<int>)
    ensures |r| == |times| && forall i :: 0 <= i < |r| ==> r[i] == now - times[i]
  {
    seq(|times|, i requires 0 <= i < |times| => now - times[i])
  }

  /** The bucket a row inside the window belongs to. */
  function BucketOf(age: int): (b: nat)
    requires age < WINDOW_MS
    ensures b < BUCKETS && Belongs(age, b)
    ensures forall c :: 0 <= c < BUCKETS && Belongs(age, c) ==> c == b
  {
    if age < 0 then BUCKETS - 1 else BUCKETS - 1 - age / MINUTE_MS
  }

  function Histogram(ages: seq<int>, n: nat): (h: seq<nat>)
    ensures |h| == n && forall b :: 0 <= b < n ==> h[b] == InBucket(ages, b)
  {
    seq(n, b requires 0 <= b < n => InBucket(ages, b))
  }

  lemma {:induction false} SumGrows(ages: seq<int>, age: int, n: nat)
    requires n <= BUCKETS
    ensures Sum(Histogram(ages + [age], n))
            == Sum(Histogram(ages, n)) + if age < WINDOW_MS && BucketOf(age) < n then 1 else 0
  {
    if n > 0 {
      SumGrows(ages, age, n - 1);
      assert Histogram(ages + [age], n)[..n-1] == Histogram(ages + [age], n - 1);
      assert Histogram(ages, n)[..n-1] == Histogram(ages, n - 1);
      assert (ages + [age])[..|ages|] == ages;
      if age < WINDOW_MS {
        assert Belongs(age, n - 1) <==> BucketOf(age) == n - 1;
      }
    }
  }

  lemma {:induction false} SumOfZeros(n: nat)
    ensures Sum(Histogram([], n)) == 0
  {
    if n > 0 {
      SumOfZeros(n - 1);
      assert Histogram([], n)[..n-1] == Histogram([], n - 1);
    }
  }

  /** Every row of the last hour is counted in exactly one bucket, and no other row is. */
  lemma {:induction false} EveryRowIsCountedOnce(ages: seq<int>)
    ensures Sum(Histogram(ages, 60)) == InWindow(ages)
  {
    if ages == [] {
      SumOfZeros(BUCKETS);
    } else {
      var n := |ages| - 1;
      assert ages[..n] + [ages[n]] == ages;
      EveryRowIsCountedOnce(ages[..n]);
      SumGrows(ages[..n], ages[n], BUCKETS);
    }
  }
}
