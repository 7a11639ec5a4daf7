/**
 * Counting and grouping as the dashboard's pandas chains do it: `sum()`
 * over a boolean mask, `groupby(key).agg(...)` (missing keys dropped, keys
 * sorted ascending) and `value_counts()` (keys ordered by count, largest
 * first). Rows are described column-wise: one optional key per row and, per
 * aggregate, one flag per row saying whether the row is counted.
 */
module Grouping {
  import opened Wrappers

  // -----------------------------------------------------------------------
  // Counting flags
  // -----------------------------------------------------------------------

  /** `mask.sum()`: the number of set flags. */
  function Count(flags: seq<bool>): (n: nat)
    ensures n <= |flags|
    ensures n == 0 <==> forall i :: 0 <= i < |flags| ==> !flags[i]
  {
    if flags == [] then 0
    else (if flags[0] then 1 else 0) + Count(flags[1..])
  }

  /** A mask that implies another, row by row, counts no more. */
  lemma {:induction false} CountMonotone(a: seq<bool>, b: seq<bool>)
    requires |a| == |b|
    requires forall i :: 0 <= i < |a| && a[i] ==> b[i]
    ensures Count(a) <= Count(b)
  {
    if a != [] {
      CountMonotone(a[1..], b[1..]);
    }
  }

  // -----------------------------------------------------------------------
  // Per-key tallies
  // -----------------------------------------------------------------------

  /** The rows whose key is `k` and whose flag is set. */
  function Tally<K(==)>(keys: seq<Option<K>>, flags: seq<bool>, k: K): (n: nat)
    requires |keys| == |flags|
    ensures n <= Count(flags)
  {
    if keys == [] then 0
    else (if keys[0] == Some(k) && flags[0] then 1 else 0) + Tally(keys[1..], flags[1..], k)
  }

  /** The rows whose key is present and in `ks`, and whose flag is set. */
  function TallyIn<K(==)>(keys: seq<Option<K>>, flags: seq<bool>, ks: set<K>): nat
    requires |keys| == |flags|
  {
    if keys == [] then 0
    else (if keys[0].Some? && keys[0].value in ks && flags[0] then 1 else 0) + TallyIn(keys[1..], flags[1..], ks)
  }

  /** The rows whose key is present and whose flag is set: what a `groupby` aggregate counts in total. */
  function Flagged<K>(keys: seq<Option<K>>, flags: seq<bool>): (n: nat)
    requires |keys| == |flags|
    ensures n <= Count(flags)
  {
    if keys == [] then 0
    else (if keys[0].Some? && flags[0] then 1 else 0) + Flagged(keys[1..], flags[1..])
  }

  lemma {:induction false} TallyInEmpty<K>(keys: seq<Option<K>>, flags: seq<bool>)
    requires |keys| == |flags|
    ensures TallyIn(keys, flags, {}) == 0
  {
    if keys != [] {
      TallyInEmpty(keys[1..], flags[1..]);
    }
  }

  /** Adding a new key to the set adds that key's tally. */
  lemma {:induction false} TallyInAdd<K>(keys: seq<Option<K>>, flags: seq<bool>, ks: set<K>, k: K)
    requires |keys| == |flags| && k !in ks
    ensures TallyIn(keys, flags, ks + {k}) == TallyIn(keys, flags, ks) + Tally(keys, flags, k)
  {
    if keys != [] {
      TallyInAdd(keys[1..], flags[1..], ks, k);
    }
  }

  /** A set holding every present key tallies every flagged row with a key. */
  lemma {:induction false} TallyInAll<K>(keys: seq<Option<K>>, flags: seq<bool>, ks: set<K>)
    requires |keys| == |flags|
    requires forall k :: Some(k) in keys ==> k in ks
    ensures TallyIn(keys, flags, ks) == Flagged(keys, flags)
  {
    if keys != [] {
      assert forall k :: Some(k) in keys[1..] ==> Some(k) in keys;
      TallyInAll(keys[1..], flags[1..], ks);
    }
  }

  /** A key that occurs with a set flag has a positive tally. */
  lemma {:induction false} TallyPositive<K>(keys: seq<Option<K>>, flags: seq<bool>, i: nat)
    requires |keys| == |flags| && i < |keys| && keys[i].Some? && flags[i]
    ensures Tally(keys, flags, keys[i].value) >= 1
  {
    if i > 0 {
      TallyPositive(keys[1..], flags[1..], i - 1);
    }
  }

  /** Splitting a key's rows by a second mask splits its tally. */
  lemma {:induction false} TallySplit<K>(keys: seq<Option<K>>, flags: seq<bool>, k: K)
    requires |keys| == |flags|
    ensures Tally(keys, flags, k) + Tally(keys, Negated(flags), k) == Tally(keys, AllSet(|keys|), k)
  {
    if keys != [] {
      assert Negated(flags)[1..] == Negated(flags[1..]);
      assert AllSet(|keys|)[1..] == AllSet(|keys| - 1);
      TallySplit(keys[1..], flags[1..], k);
    }
  }

  function Negated(flags: seq<bool>): (r: seq<bool>)
    ensures |r| == |flags| && forall i :: 0 <= i < |flags| ==> r[i] == !flags[i]
  {
    seq(|flags|, i requires 0 <= i < |flags| => !flags[i])
  }

  /** One set flag per row: every row is counted. */
  function AllSet(n: nat): (r: seq<bool>)
    ensures |r| == n && forall i :: 0 <= i < n ==> r[i]
  {
    seq(n, i => true)
  }

  /** The sum of the tallies of the keys `ks`, in order. */
  function SumTallies<K(==)>(keys: seq<Option<K>>, flags: seq<bool>, ks: seq<K>): nat
    requires |keys| == |flags|
  {
    if ks == [] then 0 else Tally(keys, flags, ks[0]) + SumTallies(keys, flags, ks[1..])
  }

  /** No key repeats. */
  predicate Distinct<K(==)>(ks: seq<K>) {
    forall i, j :: 0 <= i < j < |ks| ==> ks[i] != ks[j]
  }

  /** Summing over distinct keys is tallying their set. */
  lemma {:induction false} SumTalliesIsTallyIn<K>(keys: seq<Option<K>>, flags: seq<bool>, ks: seq<K>)
    requires |keys| == |flags| && Distinct(ks)
    ensures SumTallies(keys, flags, ks) == TallyIn(keys, flags, set k | k in ks)
  {
    if ks == [] {
      assert (set k | k in ks) == {};
      TallyInEmpty(keys, flags);
    } else {
      var rest := set k | k in ks[1..];
      assert ks[0] !in rest by {
        forall j | 0 <= j < |ks[1..]| ensures ks[1..][j] != ks[0] {
          assert ks[1..][j] == ks[j + 1];
        }
      }
      assert (set k | k in ks) == rest + {ks[0]};
      SumTalliesIsTallyIn(keys, flags, ks[1..]);
      TallyInAdd(keys, flags, rest, ks[0]);
    }
  }

  /** Summing over distinct keys that cover every present key counts every flagged row with a key. */
  lemma SumTalliesCover<K>(keys: seq<Option<K>>, flags: seq<bool>, ks: seq<K>)
    requires |keys| == |flags| && Distinct(ks)
    requires forall k :: Some(k) in keys ==> k in ks
    ensures SumTallies(keys, flags, ks) == Flagged(keys, flags)
  {
    SumTalliesIsTallyIn(keys, flags, ks);
    TallyInAll(keys, flags, set k | k in ks);
  }

  // -----------------------------------------------------------------------
  // Group keys: the present keys, once each, ascending
  // -----------------------------------------------------------------------

  /** `le` is a total order on `K`. */
  ghost predicate TotalOrder<K(!new)>(le: (K, K) -> bool) {
    && (forall a, b :: le(a, b) || le(b, a))
    && (forall a, b :: le(a, b) && le(b, a) ==> a == b)
    && (forall a, b, c :: le(a, b) && le(b, c) ==> le(a, c))
  }

  /** Each key is below every later one and differs from it. */
  ghost predicate StrictlyAscending<K(!new)>(s: seq<K>, le: (K, K) -> bool) {
    forall i, j :: 0 <= i < j < |s| ==> le(s[i], s[j]) && s[i] != s[j]
  }

  /** Places `k` into an ascending key list, unless it is already there. */
  function InsertKey<K(==,!new)>(s: seq<K>, k: K, le: (K, K) -> bool): (r: seq<K>)
    requires TotalOrder(le) && StrictlyAscending(s, le)
    ensures StrictlyAscending(r, le)
    ensures forall x :: x in r <==> x == k || x in s
  {
    if s == [] then [k]
    else if k == s[0] then s
    else if le(k, s[0]) then [k] + s
    else
      var tail := InsertKey(s[1..], k, le);
      assert s == [s[0]] + s[1..];
      assert le(s[0], k);
      forall j | 0 <= j < |tail| ensures le(s[0], tail[j]) && s[0] != tail[j] {
        if tail[j] != k {
          assert tail[j] in tail;
          assert tail[j] in s[1..];
          var m :| 0 <= m < |s[1..]| && s[1..][m] == tail[j];
          assert s[m + 1] == tail[j];
        }
      }
      [s[0]] + tail
  }

  /** `groupby` keys: every present key once, ascending; missing keys are dropped. */
  function GroupKeys<K(==,!new)>(keys: seq<Option<K>>, le: (K, K) -> bool): (r: seq<K>)
    requires TotalOrder(le)
    ensures StrictlyAscending(r, le)
    ensures forall k :: k in r <==> Some(k) in keys
  {
    if keys == [] then []
    else
      var n := |keys| - 1;
      var r := GroupKeys(keys[..n], le);
      assert keys == keys[..n] + [keys[n]];
      match keys[n]
      case None => r
      case Some(k) => InsertKey(r, k, le)
  }

  /** Summed over the groups, a tally counts every flagged row with a present key. */
  lemma GroupTalliesSum<K(!new)>(keys: seq<Option<K>>, flags: seq<bool>, le: (K, K) -> bool)
    requires |keys| == |flags| && TotalOrder(le)
    ensures SumTallies(keys, flags, GroupKeys(keys, le)) == Flagged(keys, flags)
  {
    SumTalliesCover(keys, flags, GroupKeys(keys, le));
  }

  // -----------------------------------------------------------------------
  // Value counts
  // -----------------------------------------------------------------------

  /** One row of `value_counts()`: a value and how many rows hold it. */
  datatype Bucket<K> = Bucket(key: K, count: nat)

  function SumCounts<K>(bs: seq<Bucket<K>>): nat {
    if bs == [] then 0 else bs[0].count + SumCounts(bs[1..])
  }

  /** Counts never increase along the list. */
  predicate NonIncreasing<K>(bs: seq<Bucket<K>>) {
    forall i, j :: 0 <= i < j < |bs| ==> bs[i].count >= bs[j].count
  }

  predicate DistinctKeys<K(==)>(bs: seq<Bucket<K>>) {
    forall i, j :: 0 <= i < j < |bs| ==> bs[i].key != bs[j].key
  }

  /** No bucket in the list has key `k`. */
  predicate KeyAbsent<K(==)>(bs: seq<Bucket<K>>, k: K) {
    forall i :: 0 <= i < |bs| ==> bs[i].key != k
  }

  /** Places `b` before the first bucket whose count is not larger. */
  function InsertByCount<K(==,!new)>(b: Bucket<K>, s: seq<Bucket<K>>): (r: seq<Bucket<K>>)
    requires NonIncreasing(s)
    ensures NonIncreasing(r)
    ensures |r| == |s| + 1
    ensures forall x :: x in r <==> x == b || x in s
    ensures SumCounts(r) == SumCounts(s) + b.count
  {
    if s == [] then [b]
    else if s[0].count <= b.count then
      [b] + s
    else
      var tail := InsertByCount(b, s[1..]);
      assert s == [s[0]] + s[1..];
      forall i | 0 <= i < |tail| ensures tail[i].count <= s[0].count {
        assert tail[i] in tail;
        if tail[i] != b {
          var j :| 0 <= j < |s[1..]| && s[1..][j] == tail[i];
          assert s[j + 1] == tail[i];
        }
      }
      [s[0]] + tail
  }

  /** Inserting a bucket whose key is new keeps the keys distinct. */
  lemma {:induction false} InsertByCountDistinct<K(!new)>(b: Bucket<K>, s: seq<Bucket<K>>)
    requires NonIncreasing(s) && DistinctKeys(s) && KeyAbsent(s, b.key)
    ensures DistinctKeys(InsertByCount(b, s))
  {
    if s != [] && s[0].count > b.count {
      var tail := InsertByCount(b, s[1..]);
      assert s == [s[0]] + s[1..];
      InsertByCountDistinct(b, s[1..]);
      forall i | 0 <= i < |tail| ensures tail[i].key != s[0].key {
        assert tail[i] in tail;
        if tail[i] != b {
          var j :| 0 <= j < |s[1..]| && s[1..][j] == tail[i];
          assert s[j + 1] == tail[i];
        }
      }
      assert InsertByCount(b, s) == [s[0]] + tail;
    }
  }

  /** `sort_values(ascending=False)` on the counts, by insertion. */
  function SortByCount<K(==,!new)>(bs: seq<Bucket<K>>): (r: seq<Bucket<K>>)
    ensures NonIncreasing(r)
    ensures |r| == |bs|
    ensures forall x :: x in r <==> x in bs
    ensures SumCounts(r) == SumCounts(bs)
  {
    if bs == [] then []
    else
      var rest := SortByCount(bs[1..]);
      assert bs == [bs[0]] + bs[1..];
      InsertByCount(bs[0], rest)
  }

  /** Sorting buckets with distinct keys keeps the keys distinct. */
  lemma {:induction false} SortByCountDistinct<K(!new)>(bs: seq<Bucket<K>>)
    requires DistinctKeys(bs)
    ensures DistinctKeys(SortByCount(bs))
  {
    if bs != [] {
      var rest := SortByCount(bs[1..]);
      assert bs == [bs[0]] + bs[1..];
      SortByCountDistinct(bs[1..]);
      forall i | 0 <= i < |rest| ensures rest[i].key != bs[0].key {
        assert rest[i] in rest;
        var j :| 0 <= j < |bs[1..]| && bs[1..][j] == rest[i];
        assert bs[j + 1] == rest[i];
      }
      InsertByCountDistinct(bs[0], rest);
    }
  }

  /** One bucket per key, holding that key's tally. */
  function Buckets<K(==)>(keys: seq<Option<K>>, flags: seq<bool>, ks: seq<K>): (r: seq<Bucket<K>>)
    requires |keys| == |flags|
    ensures |r| == |ks|
    ensures forall i :: 0 <= i < |ks| ==> r[i] == Bucket(ks[i], Tally(keys, flags, ks[i]))
  {
    seq(|ks|, i requires 0 <= i < |ks| => Bucket(ks[i], Tally(keys, flags, ks[i])))
  }

  lemma {:induction false} SumCountsOfBuckets<K>(keys: seq<Option<K>>, flags: seq<bool>, ks: seq<K>)
    requires |keys| == |flags|
    ensures SumCounts(Buckets(keys, flags, ks)) == SumTallies(keys, flags, ks)
  {
    if ks != [] {
      assert Buckets(keys, flags, ks)[1..] == Buckets(keys, flags, ks[1..]);
      SumCountsOfBuckets(keys, flags, ks[1..]);
    }
  }

  /** The buckets of the present keys are the buckets of present keys with their tallies. */
  lemma BucketsMembers<K>(keys: seq<Option<K>>, flags: seq<bool>, ks: seq<K>)
    requires |keys| == |flags|
    requires forall k :: k in ks <==> Some(k) in keys
    ensures forall b :: b in Buckets(keys, flags, ks) <==>
              Some(b.key) in keys && b.count == Tally(keys, flags, b.key)
  {
    var bs := Buckets(keys, flags, ks);
    forall b: Bucket<K> | Some(b.key) in keys && b.count == Tally(keys, flags, b.key)
      ensures b in bs
    {
      var i :| 0 <= i < |ks| && ks[i] == b.key;
      assert bs[i] == b;
    }
  }

  /** Every bucket of a present key counts at least one row when every row is counted. */
  lemma BucketsPositive<K>(keys: seq<Option<K>>, ks: seq<K>)
    requires forall k :: k in ks ==> Some(k) in keys
    ensures forall b :: b in Buckets(keys, AllSet(|keys|), ks) ==> b.count >= 1
  {
    forall b | b in Buckets(keys, AllSet(|keys|), ks) ensures b.count >= 1 {
      var i :| 0 <= i < |keys| && keys[i] == Some(b.key);
      TallyPositive(keys, AllSet(|keys|), i);
    }
  }

  /** The flagged rows with a key, counted as one mask. */
  lemma {:induction false} FlaggedIsCount<K>(keys: seq<Option<K>>, flags: seq<bool>)
    requires |keys| == |flags|
    ensures Flagged(keys, flags) == Count(seq(|keys|, i requires 0 <= i < |keys| => keys[i].Some? && flags[i]))
  {
    if keys != [] {
      var m := seq(|keys|, i requires 0 <= i < |keys| => keys[i].Some? && flags[i]);
      assert m[1..] == seq(|keys[1..]|, i requires 0 <= i < |keys[1..]| => keys[1..][i].Some? && flags[1..][i]);
      FlaggedIsCount(keys[1..], flags[1..]);
    }
  }

  /** `value_counts()`: each present value with its number of rows, largest count first. */
  function ValueCounts<K(==,!new)>(keys: seq<Option<K>>, le: (K, K) -> bool): (r: seq<Bucket<K>>)
    requires TotalOrder(le)
    ensures NonIncreasing(r)
    ensures forall b :: b in r ==> Some(b.key) in keys
  {
    SortByCount(Buckets(keys, AllSet(|keys|), GroupKeys(keys, le)))
  }

  /**
   * The value counts hold every present value exactly once, each with its
   * number of rows, that number at least one; the counts do not increase and
   * add up to the number of rows with a present value.
   */
  lemma ValueCountsSpec<K(!new)>(keys: seq<Option<K>>, le: (K, K) -> bool)
    requires TotalOrder(le)
    ensures var r := ValueCounts(keys, le);
            && NonIncreasing(r)
            && DistinctKeys(r)
            && (forall b :: b in r <==> Some(b.key) in keys && b.count == Tally(keys, AllSet(|keys|), b.key))
            && (forall b :: b in r ==> b.count >= 1)
            && SumCounts(r) == Flagged(keys, AllSet(|keys|))
  {
    var ks := GroupKeys(keys, le);
    var bs := Buckets(keys, AllSet(|keys|), ks);
    assert DistinctKeys(bs);
    SortByCountDistinct(bs);
    BucketsMembers(keys, AllSet(|keys|), ks);
    BucketsPositive(keys, ks);
    SumCountsOfBuckets(keys, AllSet(|keys|), ks);
    GroupTalliesSum(keys, AllSet(|keys|), le);
  }
}
