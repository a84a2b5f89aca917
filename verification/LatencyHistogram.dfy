/** The load test's fixed-bucket latency histogram (cmd/loadtest/hist.go), against the list
    of samples it stands for. */
module LatencyHistogram {
  import opened Sorting

  const HIST_MAX_MS: nat := 5000

  /** How many samples equal v, and how many are at most v. */
  function CountOf(samples: seq<nat>, v: int): nat {
    if samples == [] then 0
    else CountOf(samples[..|samples| - 1], v) + (if samples[|samples| - 1] == v then 1 else 0)
  }

  function CountAtMost(samples: seq<nat>, v: int): nat {
    if samples == [] then 0
    else CountAtMost(samples[..|samples| - 1], v) + (if samples[|samples| - 1] <= v then 1 else 0)
  }

  function Largest(samples: seq<nat>): nat {
    if samples == [] then 0
    else
      var m := Largest(samples[..|samples| - 1]);
      if samples[|samples| - 1] > m then samples[|samples| - 1] else m
  }

  /** Go's ceil of a float64. */
  function Ceil(x: real): int {
    -((-x).Floor)
  }

  /** The rank asked for, ceil(q * count), before and after it is kept within 1..count. */
  function Asked(q: real, count: nat): int {
    Ceil(q * (count as real))
  }

  function Within(rank: int, count: nat): int {
    var atLeast1 := if rank > 1 then rank else 1;
    if atLeast1 < count then atLeast1 else count
  }

  function Rank(q: real, count: nat): (rank: int)
    requires count > 0
    ensures 1 <= rank <= count
  {
    Within(Asked(q, count), count)
  }

  // ------------------------------------------------------------------ counting

  lemma {:induction false} CountAppend(a: seq<nat>, b: seq<nat>, v: int)
    ensures CountOf(a + b, v) == CountOf(a, v) + CountOf(b, v)
    ensures CountAtMost(a + b, v) == CountAtMost(a, v) + CountAtMost(b, v)
  {
    if b == [] {
      assert a + b == a;
    } else {
      assert (a + b)[..|a + b| - 1] == a + b[..|b| - 1];
      CountAppend(a, b[..|b| - 1], v);
    }
  }

  lemma {:induction false} CountUpTo(samples: seq<nat>, v: int)
    ensures CountAtMost(samples, v) == CountAtMost(samples, v - 1) + CountOf(samples, v)
    ensures v < 0 ==> CountAtMost(samples, v) == 0
    ensures CountAtMost(samples, v) <= |samples|
  {
    if samples != [] { CountUpTo(samples[..|samples| - 1], v); }
  }

  lemma {:induction false} LargestAppend(a: seq<nat>, b: seq<nat>)
    ensures Largest(a + b) == if Largest(a) > Largest(b) then Largest(a) else Largest(b)
  {
    if b == [] {
      assert a + b == a;
    } else {
      assert (a + b)[..|a + b| - 1] == a + b[..|b| - 1];
      LargestAppend(a, b[..|b| - 1]);
    }
  }

  lemma LargestOfFront(front: seq<nat>, last: nat)
    ensures Largest(front + [last]) == if last > Largest(front) then last else Largest(front)
  {
    assert (front + [last])[..|front|] == front;
  }

  lemma {:induction false} LargestBounds(samples: seq<nat>, i: nat)
    requires i < |samples|
    ensures samples[i] <= Largest(samples)
  {
    var n := |samples| - 1;
    LargestOfFront(samples[..n], samples[n]);
    assert samples == samples[..n] + [samples[n]];
    if i < n { LargestBounds(samples[..n], i); }
  }

  lemma {:induction false} LargestIsOne(samples: seq<nat>) returns (i: nat)
    requires samples != []
    ensures i < |samples| && samples[i] == Largest(samples)
  {
    var n := |samples| - 1;
    LargestOfFront(samples[..n], samples[n]);
    assert samples == samples[..n] + [samples[n]];
    if n == 0 || samples[n] > Largest(samples[..n]) { i := n; } else { i := LargestIsOne(samples[..n]); }
  }

  ghost predicate Ascending(s: seq<nat>) {
    forall i, j :: 0 <= i <= j < |s| ==> s[i] <= s[j]
  }

  lemma {:induction false} CountByMultiset(samples: seq<nat>, v: int)
    ensures CountOf(samples, v) == if v < 0 then 0 else multiset(samples)[v as nat]
  {
    if samples != [] {
      CountByMultiset(samples[..|samples| - 1], v);
      assert samples == samples[..|samples| - 1] + [samples[|samples| - 1]];
    }
  }

  lemma {:induction false} SameCounts(a: seq<nat>, b: seq<nat>, v: int)
    requires multiset(a) == multiset(b)
    ensures CountAtMost(a, v) == CountAtMost(b, v)
    decreases if v < 0 then 0 else v + 1
  {
    CountUpTo(a, v);
    CountUpTo(b, v);
    if v >= 0 {
      SameCounts(a, b, v - 1);
      CountByMultiset(a, v);
      CountByMultiset(b, v);
    }
  }

  /** In a sorted list, the entries at most v are its first CountAtMost(v). */
  lemma {:induction false} CountInSorted(s: seq<nat>, v: int)
    requires Ascending(s)
    ensures CountAtMost(s, v) <= |s|
    ensures forall i :: 0 <= i < |s| ==> (s[i] <= v <==> i < CountAtMost(s, v))
  {
    if s != [] {
      CountInSorted(s[..|s| - 1], v);
      forall i | 0 <= i < |s| - 1 ensures s[i] <= s[|s| - 1] { }
    }
  }

  /** The entry of a given rank in sorted order is the least value with that many samples at
      or below it. */
  lemma RankInSorted(samples: seq<nat>, sorted: seq<nat>, rank: int, v: int)
    requires Ascending(sorted) && multiset(sorted) == multiset(samples) && 1 <= rank <= |samples|
    ensures |sorted| == |samples|
    ensures sorted[rank - 1] <= v <==> rank <= CountAtMost(samples, v)
  {
    assert |multiset(sorted)| == |multiset(samples)|;
    CountInSorted(sorted, v);
    SameCounts(sorted, samples, v);
  }

  // ------------------------------------------------------------------ the percentile

  predicate NoLater(a: nat, b: nat) {
    a <= b
  }

  /** The reference: sort the samples and take the entry of that rank, at most 5000. */
  function Entry(samples: seq<nat>, rank: int): nat
    requires 1 <= rank <= |samples|
  {
    SortMultiset(samples, NoLater);
    var x := SortBy(samples, NoLater)[rank - 1];
    if x < HIST_MAX_MS then x else HIST_MAX_MS
  }

  function PercentileOf(samples: seq<nat>, q: real): nat {
    if samples == [] then 0
    else
      Entry(samples, Rank(q, |samples|))
  }

  lemma SortedOf(samples: seq<nat>)
    ensures multiset(SortBy(samples, NoLater)) == multiset(samples)
    ensures Ascending(SortBy(samples, NoLater))
  {
    SortMultiset(samples, NoLater);
    SortSorted(samples, NoLater);
  }

  /** The value whose running count first reaches the rank is the entry of that rank. */
  lemma FirstToReach(samples: seq<nat>, rank: int, ms: nat)
    requires 1 <= rank <= |samples| && ms < HIST_MAX_MS
    requires CountAtMost(samples, ms - 1) < rank <= CountAtMost(samples, ms)
    ensures Entry(samples, rank) == ms
  {
    var t := SortBy(samples, NoLater);
    SortedOf(samples);
    RankInSorted(samples, t, rank, ms);
    RankInSorted(samples, t, rank, ms - 1);
    assert t[rank - 1] == ms;
  }

  lemma NoneReaches(samples: seq<nat>, rank: int)
    requires 1 <= rank <= |samples| && CountAtMost(samples, HIST_MAX_MS - 1) < rank
    ensures Entry(samples, rank) == HIST_MAX_MS
  {
    SortedOf(samples);
    RankInSorted(samples, SortBy(samples, NoLater), rank, HIST_MAX_MS - 1);
  }

  lemma CeilMeaning(x: real, c: int)
    ensures Ceil(x) <= c <==> x <= c as real
  {
  }

  lemma RankWithin(q: real, count: nat, c: int)
    requires 0 < count && 0 <= c <= count
    ensures Rank(q, count) <= c <==> c >= 1 && (c as real >= q * (count as real) || c == count)
  {
    CeilMeaning(q * (count as real), c);
  }

  lemma EntryAtMost(samples: seq<nat>, rank: int, v: nat)
    requires 1 <= rank <= |samples| && v < HIST_MAX_MS
    ensures Entry(samples, rank) <= v <==> rank <= CountAtMost(samples, v)
  {
    SortedOf(samples);
    RankInSorted(samples, SortBy(samples, NoLater), rank, v);
  }

  /** The percentile is at most v exactly when some sample is, and the samples up to v make up
      at least the fraction q of them, or are all there are: it is the least such v. */
  lemma PercentileIsLeast(samples: seq<nat>, q: real, v: nat)
    requires samples != [] && v < 5000
    ensures PercentileOf(samples, q) <= v
            <==> var upTo := CountAtMost(samples, v);
                 && upTo >= 1
                 && (upTo as real >= q * (|samples| as real) || upTo == |samples|)
  {
    CountUpTo(samples, v);
    EntryAtMost(samples, Rank(q, |samples|), v);
    RankWithin(q, |samples|, CountAtMost(samples, v));
  }

  // ------------------------------------------------------------------ the histogram

  class Histogram {
    var buckets: array<int>
    var over: int
    var count: int
    var max: int
    ghost var samples: seq<nat>

    /** The fields stand for the clamped samples recorded. */
    ghost predicate Valid()
      reads this, buckets
    {
      && buckets.Length == HIST_MAX_MS
      && (forall i :: 0 <= i < HIST_MAX_MS ==> buckets[i] == CountOf(samples, i))
      && over == |samples| - CountAtMost(samples, HIST_MAX_MS - 1)
      && count == |samples|
      && max == Largest(samples)
    }

    constructor ()
      ensures Valid() && samples == [] && fresh(buckets)
    {
      buckets := new int[HIST_MAX_MS](i => 0);
      over, count, max, samples := 0, 0, 0, [];
    }

    /** Records one sample. */
    method Add(ms: int)
      requires Valid()
      modifies this, buckets
      ensures Valid() && buckets == old(buckets)
      ensures |samples| == |old(samples)| + 1 && samples[..|old(samples)|] == old(samples)
      ensures samples[|old(samples)|] >= ms && (samples[|old(samples)|] == ms || samples[|old(samples)|] == 0)
    {
      var v := if ms < 0 then 0 else ms;
      samples := samples + [v];
      assert samples[..|samples| - 1] == old(samples);
      if v > max { max := v; }
      count := count + 1;
      if v >= HIST_MAX_MS {
        over := over + 1;
      } else {
        buckets[v] := buckets[v] + 1;
      }
    }

    /** Folds another histogram in, itself included. */
    method Merge(o: Histogram)
      requires Valid() && o.Valid()
      requires this == o || buckets != o.buckets
      modifies this, buckets
      ensures Valid() && samples == old(samples) + old(o.samples) && buckets == old(buckets)
    {
      for i := 0 to HIST_MAX_MS
        invariant buckets == old(buckets) && o.buckets == old(o.buckets)
        invariant samples == old(samples) && over == old(over) && count == old(count) && max == old(max)
        invariant o.samples == old(o.samples) && o.over == old(o.over) && o.count == old(o.count) && o.max == old(o.max)
        invariant forall k :: 0 <= k < i ==> buckets[k] == old(buckets[k]) + old(o.buckets[k])
        invariant forall k :: i <= k < HIST_MAX_MS ==>
                                buckets[k] == old(buckets[k]) && o.buckets[k] == old(o.buckets[k])
      {
        buckets[i] := buckets[i] + o.buckets[i];
      }
      ghost var a, b := samples, o.samples;
      over := over + o.over;
      count := count + o.count;
      if o.max > max { max := o.max; }
      samples := samples + o.samples;
      forall v ensures CountOf(a + b, v) == CountOf(a, v) + CountOf(b, v)
                       && CountAtMost(a + b, v) == CountAtMost(a, v) + CountAtMost(b, v) {
        CountAppend(a, b, v);
      }
      LargestAppend(a, b);
    }

    /** The first value whose running count reaches the rank. */
    method ValueOfRank(rank: int) returns (ms: int)
      requires Valid() && 1 <= rank <= |samples|
      ensures ms == Entry(samples, rank)
    {
      var cum := 0;
      CountUpTo(samples, -1);
      for i := 0 to HIST_MAX_MS
        invariant cum == CountAtMost(samples, i - 1) < rank
      {
        CountUpTo(samples, i);
        cum := cum + buckets[i];
        if cum >= rank {
          FirstToReach(samples, rank, i);
          return i;
        }
      }
      NoneReaches(samples, rank);
      return HIST_MAX_MS;
    }

    /** The sample of rank ceil(q * count) in sorted order, or 5000 where that is an overflow. */
    method Percentile(q: real) returns (ms: int)
      requires Valid()
      ensures ms == PercentileOf(samples, q)
      ensures samples == [] ==> ms == 0
    {
      if count == 0 { return 0; }
      var rank := Asked(q, count);
      if rank < 1 { rank := 1; }
      if rank > count { rank := count; }
      ms := ValueOfRank(rank);
    }

    method Max() returns (m: int)
      requires Valid()
      ensures forall x :: x in samples ==> x <= m
      ensures if samples == [] then m == 0 else exists x :: x in samples && x == m
    {
      forall x | x in samples ensures x <= max {
        var i :| 0 <= i < |samples| && samples[i] == x;
        LargestBounds(samples, i);
      }
      if samples != [] {
        ghost var i := LargestIsOne(samples);
        assert samples[i] in samples;
      }
      m := max;
    }

    method Count() returns (c: int)
      requires Valid()
      ensures c == |samples|
    {
      c := count;
    }
  }

  /** Combining per-client histograms answers as one histogram of all the samples, whatever
      order they came in. */
  lemma PercentileOfMultiset(a: seq<nat>, b: seq<nat>, q: real)
    requires multiset(a) == multiset(b)
    ensures PercentileOf(a, q) == PercentileOf(b, q)
  {
    assert |a| == |multiset(a)| == |multiset(b)| == |b|;
    SortMultiset(a, NoLater);
    SortMultiset(b, NoLater);
    SortSorted(a, NoLater);
    SortSorted(b, NoLater);
    var s, t := SortBy(a, NoLater), SortBy(b, NoLater);
    SortedUnique(s, t, NoLater);
  }
}
