/**
 * The result sets the indexes hand back, as the values they denote. The Java
 * code builds each one as an anonymous ResultSet whose iterator, contains,
 * size and cost methods look the bucket(s) up again on every call; here a
 * View records the bucket(s) it looks at, and Items, Contains, Size and
 * MergeCost give what those methods answer. Iteration order is not modelled:
 * Items is the multiset of objects an iteration yields.
 */
module ResultViews {
  import opened Wrappers

  // ---------- Query options ----------

  /** The strategies of DeduplicationOption. */
  datatype DeduplicationStrategy = Duplicate | LogicalElimination | Materialize

  /** The one query option these indexes read; any other option is ignored. */
  datatype QueryOptions = QueryOptions(deduplication: Option<DeduplicationStrategy>)

  /** DeduplicationOption.isLogicalElimination. */
  predicate IsLogicalElimination(options: QueryOptions) {
    options.deduplication == Some(LogicalElimination)
  }

  // ---------- Views ----------

  /**
   * Lookup: one bucket found by exact key (None when the key is absent),
   * optionally passed through a filter (QuantizedResultSet).
   * UnionAll / Union: ResultSetUnionAll / ResultSetUnion over several buckets,
   * keyed by the index key each bucket is stored under.
   */
  datatype View<!O> =
    | Lookup(bucket: Option<set<O>>, filter: Option<O -> bool>, retrievalCost: nat)
    | UnionAll(buckets: map<string, set<O>>, retrievalCost: nat)
    | Union(buckets: map<string, set<O>>, retrievalCost: nat)

  /** Some key of a non-empty map, the one the folds below take first. */
  ghost function PickKey<O>(m: map<string, set<O>>): (k: string)
    requires m != map[]
    ensures k in m
  {
    var k :| k in m; k
  }

  /** The concatenation of all buckets: an object occurs once per bucket holding it. */
  ghost function SumOfBuckets<O>(m: map<string, set<O>>): multiset<O>
    decreases |m|
  {
    if m == map[] then multiset{}
    else var k := PickKey(m); multiset(m[k]) + SumOfBuckets(m - {k})
  }

  /** The sum of the bucket sizes. */
  ghost function SumOfSizes<O>(m: map<string, set<O>>): nat
    decreases |m|
  {
    if m == map[] then 0
    else var k := PickKey(m); |m[k]| + SumOfSizes(m - {k})
  }

  /** Every object held by some bucket, once. */
  ghost function UnionOfBuckets<O>(m: map<string, set<O>>): set<O> {
    set k, o | k in m && o in m[k] :: o
  }

  /** The keys whose bucket holds `o`. */
  ghost function KeysHolding<O>(m: map<string, set<O>>, o: O): set<string> {
    set k | k in m && o in m[k]
  }

  /** The objects of `b` that `f` keeps. */
  ghost function Kept<O>(b: set<O>, f: O -> bool): set<O> {
    set o | o in b && f(o)
  }

  /** What iterating over the view yields. */
  ghost function Items<O>(v: View<O>): multiset<O> {
    match v
    case Lookup(None, _, _) => multiset{}
    case Lookup(Some(b), None, _) => multiset(b)
    case Lookup(Some(b), Some(f), _) => multiset(Kept(b, f))
    case UnionAll(m, _) => SumOfBuckets(m)
    case Union(m, _) => multiset(UnionOfBuckets(m))
  }

  /** contains(o). */
  ghost predicate Contains<O>(v: View<O>, o: O) {
    match v
    case Lookup(None, _, _) => false
    case Lookup(Some(b), None, _) => o in b
    case Lookup(Some(b), Some(f), _) => o in b && f(o)
    case UnionAll(m, _) => exists k :: k in m && o in m[k]
    case Union(m, _) => exists k :: k in m && o in m[k]
  }

  /** size(): a union without deduplication adds up the bucket sizes. */
  ghost function Size<O>(v: View<O>): nat {
    match v
    case Lookup(None, _, _) => 0
    case Lookup(Some(b), None, _) => |b|
    case Lookup(Some(b), Some(f), _) => |Kept(b, f)|
    case UnionAll(m, _) => SumOfSizes(m)
    case Union(m, _) => |UnionOfBuckets(m)|
  }

  /**
   * getMergeCost(): the size of the raw bucket for a lookup, filtered or not,
   * and the sum of the bucket sizes for a union.
   */
  ghost function MergeCost<O>(v: View<O>): nat {
    match v
    case Lookup(None, _, _) => 0
    case Lookup(Some(b), _, _) => |b|
    case UnionAll(m, _) => SumOfSizes(m)
    case Union(m, _) => SumOfSizes(m)
  }

  // ---------- Lemmas about the folds ----------

  lemma {:induction false} SumOfBucketsCounts<O>(m: map<string, set<O>>, o: O)
    ensures SumOfBuckets(m)[o] == |KeysHolding(m, o)|
    decreases |m|
  {
    if m != map[] {
      var k := PickKey(m);
      SumOfBucketsCounts(m - {k}, o);
      if o in m[k] {
        assert KeysHolding(m, o) == KeysHolding(m - {k}, o) + {k};
      } else {
        assert KeysHolding(m, o) == KeysHolding(m - {k}, o);
      }
    } else {
      assert KeysHolding(m, o) == {};
    }
  }

  lemma {:induction false} SumOfBucketsSize<O>(m: map<string, set<O>>)
    ensures |SumOfBuckets(m)| == SumOfSizes(m)
    decreases |m|
  {
    if m != map[] {
      SumOfBucketsSize(m - {PickKey(m)});
    }
  }

  lemma {:induction false} UnionOfBucketsSize<O>(m: map<string, set<O>>)
    ensures |UnionOfBuckets(m)| <= SumOfSizes(m)
    decreases |m|
  {
    if m == map[] {
      assert UnionOfBuckets(m) == {};
    } else {
      var k := PickKey(m);
      UnionOfBucketsSize(m - {k});
      var rest := m - {k};
      forall o | o in UnionOfBuckets(m) ensures o in m[k] + UnionOfBuckets(rest) {
        var k' :| k' in m && o in m[k'];
        if k' != k {
          assert k' in rest && o in rest[k'];
        }
      }
      assert UnionOfBuckets(m) <= m[k] + UnionOfBuckets(rest);
      SubsetSize(UnionOfBuckets(m), m[k] + UnionOfBuckets(rest));
      assert |m[k] + UnionOfBuckets(rest)| <= |m[k]| + |UnionOfBuckets(rest)|;
    }
  }

  lemma SubsetSize<O>(a: set<O>, b: set<O>)
    requires a <= b
    ensures |a| <= |b|
  {
    assert b == a + (b - a);
  }

  lemma KeysHoldingNonEmpty<O>(m: map<string, set<O>>, o: O)
    ensures KeysHolding(m, o) != {} <==> exists k :: k in m && o in m[k]
  {
    if exists k :: k in m && o in m[k] {
      var k :| k in m && o in m[k];
      assert k in KeysHolding(m, o);
    }
  }

  // ---------- What a view promises ----------

  /**
   * The faces of every view agree: contains(o) holds exactly for the objects
   * the iteration yields, and size() is the number of objects it yields
   * (counting repeats for a union without deduplication).
   */
  lemma ViewFacesAgree<O>(v: View<O>, o: O)
    ensures Contains(v, o) <==> o in Items(v)
    ensures Size(v) == |Items(v)|
  {
    match v
    case Lookup(_, _, _) =>
    case UnionAll(m, _) =>
      SumOfBucketsCounts(m, o);
      KeysHoldingNonEmpty(m, o);
      SumOfBucketsSize(m);
    case Union(m, _) =>
      if exists k :: k in m && o in m[k] {
        var k :| k in m && o in m[k];
        assert o in UnionOfBuckets(m);
      }
  }

  /** A union with deduplication yields every object held by some bucket exactly once. */
  lemma UnionYieldsOnce<O>(m: map<string, set<O>>, cost: nat, o: O)
    ensures Items(Union(m, cost))[o] == if exists k :: k in m && o in m[k] then 1 else 0
  {
    ViewFacesAgree(Union(m, cost), o);
  }

  /** A union without deduplication yields an object once per bucket holding it. */
  lemma UnionAllYieldsPerBucket<O>(m: map<string, set<O>>, cost: nat, o: O)
    ensures Items(UnionAll(m, cost))[o] == |KeysHolding(m, o)|
  {
    SumOfBucketsCounts(m, o);
  }

  /** Over pairwise disjoint buckets, the two unions yield the same objects. */
  lemma DisjointUnionAllIsUnion<O(!new)>(m: map<string, set<O>>, cost: nat)
    requires forall k1, k2 :: k1 in m && k2 in m && k1 != k2 ==> m[k1] !! m[k2]
    ensures Items(UnionAll(m, cost)) == Items(Union(m, cost))
  {
    var all, dedup := SumOfBuckets(m), multiset(UnionOfBuckets(m));
    forall o ensures all[o] == dedup[o] {
      SumOfBucketsCounts(m, o);
      UnionYieldsOnce(m, cost, o);
      KeysHoldingNonEmpty(m, o);
      if KeysHolding(m, o) != {} {
        var k :| k in KeysHolding(m, o);
        assert KeysHolding(m, o) == {k};
      }
    }
    assert forall o :: all[o] == dedup[o];
    assert all == dedup;
  }

  /** The merge cost is never below the size: filtering and deduplication only shrink the raw buckets. */
  lemma SizeAtMostMergeCost<O>(v: View<O>)
    ensures Size(v) <= MergeCost(v)
  {
    match v
    case Lookup(Some(b), Some(f), _) =>
      SubsetSize(Kept(b, f), b);
    case Lookup(_, _, _) =>
    case UnionAll(m, _) =>
    case Union(m, _) =>
      UnionOfBucketsSize(m);
  }
}
