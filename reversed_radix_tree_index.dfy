/**
 * ReversedRadixTreeIndex: an index on a string attribute that answers Equal
 * and StringEndsWith queries. The Java index keeps its buckets in a
 * concurrent radix tree over the reversed keys; here the tree is the map from
 * each key to its bucket, and "the keys ending with s" is a filter over the
 * map's keys. EndsWithIsReversedPrefix shows the filter is the prefix walk the
 * reversed tree does.
 */
module ReversedRadix {
  import opened Wrappers
  import opened Queries
  import opened BucketMaps
  import opened ResultViews

  /** INDEX_RETRIEVAL_COST. */
  const IndexRetrievalCost: nat := 51

  /**
   * The indexed attribute. A SimpleAttribute has exactly one value per object
   * (getValue); any other attribute (MultiValueAttribute,
   * SimpleNullableAttribute, ...) has a list of values.
   */
  datatype Attribute<!O> =
    | SimpleAttribute(name: AttributeName, getValue: O -> string)
    | OtherAttribute(name: AttributeName, getValues: O -> seq<string>)

  /** Attribute.getValues: for a SimpleAttribute, the list of its one value. */
  function GetValues<O>(a: Attribute<O>): O -> seq<string> {
    match a
    case SimpleAttribute(_, getValue) => o => [getValue(o)]
    case OtherAttribute(_, getValues) => getValues
  }

  // ---------- Suffixes ----------

  predicate EndsWith(key: string, suffix: string) {
    |suffix| <= |key| && key[|key| - |suffix|..] == suffix
  }

  /**
   * getValuesForKeysEndingWith: the buckets of the keys ending with `suffix`,
   * which are the keys whose reversal starts with the reversed suffix, the
   * subtree a tree over reversed keys collects.
   */
  function KeysEndingWith<O>(tree: map<string, set<O>>, suffix: string): (r: map<string, set<O>>)
    ensures forall k :: k in r <==> k in tree && IsPrefix(Reverse(suffix), Reverse(k))
    ensures forall k :: k in r ==> r[k] == tree[k]
  {
    assert forall k :: EndsWith(k, suffix) <==> IsPrefix(Reverse(suffix), Reverse(k)) by {
      forall k ensures EndsWith(k, suffix) <==> IsPrefix(Reverse(suffix), Reverse(k)) {
        EndsWithIsReversedPrefix(k, suffix);
      }
    }
    map k | k in tree && EndsWith(k, suffix) :: tree[k]
  }

  function Reverse(s: string): (r: string)
    ensures |r| == |s|
  {
    if s == [] then [] else Reverse(s[1..]) + [s[0]]
  }

  predicate IsPrefix(p: string, s: string) {
    |p| <= |s| && s[..|p|] == p
  }

  lemma {:induction false} ReverseIndex(s: string, i: nat)
    requires i < |s|
    ensures Reverse(s)[i] == s[|s| - 1 - i]
    decreases |s|
  {
    if i < |s| - 1 {
      ReverseIndex(s[1..], i);
    }
  }

  /**
   * A key ends with `suffix` exactly when the reversed key starts with the
   * reversed suffix: the lookup the reversed radix tree performs.
   */
  lemma EndsWithIsReversedPrefix(key: string, suffix: string)
    ensures EndsWith(key, suffix) <==> IsPrefix(Reverse(suffix), Reverse(key))
  {
    var n, m := |key|, |suffix|;
    if m <= n {
      var rk, rs := Reverse(key), Reverse(suffix);
      forall i | 0 <= i < m ensures rk[i] == key[n - 1 - i] && rs[i] == suffix[m - 1 - i] {
        ReverseIndex(key, i);
        ReverseIndex(suffix, i);
      }
      if EndsWith(key, suffix) {
        forall i | 0 <= i < m ensures rk[..m][i] == rs[i] {
          assert key[n - m..][m - 1 - i] == suffix[m - 1 - i];
        }
      }
      if IsPrefix(rs, rk) {
        forall j | 0 <= j < m ensures key[n - m..][j] == suffix[j] {
          assert rk[..m][m - 1 - j] == rs[m - 1 - j];
        }
      }
    }
  }

  // ---------- The index ----------

  class ReversedRadixTreeIndex<O(==)> {
    const attribute: Attribute<O>
    /** The buckets, keyed by attribute value. */
    var tree: map<string, set<O>>

    /** Every stored bucket is non-empty and holds only objects that have its key. */
    ghost predicate Valid()
      reads this
    {
      NonEmptyBuckets(tree) && StoredUnderOwnKeys(tree, GetValues(attribute))
    }

    /** onAttribute(attribute): an index with an empty tree. */
    constructor (attribute: Attribute<O>)
      ensures this.attribute == attribute && tree == map[]
      ensures Valid()
    {
      this.attribute := attribute;
      tree := map[];
    }

    /** The query classes this index supports: Equal and StringEndsWith, and no logical query. */
    predicate SupportsQuery(q: Query<string>): (r: bool)
      ensures r <==> q.Equal? || q.StringEndsWith?
      ensures IsLogical(q) ==> !r
    {
      q.Equal? || q.StringEndsWith?
    }

    function IsMutable(): (r: bool)
      ensures r
    {
      true
    }

    /**
     * unionResultSets: a deduplicating union exactly when logical elimination
     * is requested and the attribute is not a SimpleAttribute, the
     * concatenating union otherwise; either reports the index's retrieval cost.
     */
    function UnionResultSets(buckets: map<string, set<O>>, options: QueryOptions): (r: View<O>)
      ensures r.Union? <==> IsLogicalElimination(options) && !attribute.SimpleAttribute?
      ensures r.UnionAll? <==> !IsLogicalElimination(options) || attribute.SimpleAttribute?
      ensures (r.Union? || r.UnionAll?) && r.buckets == buckets
      ensures r.retrievalCost == IndexRetrievalCost
    {
      if IsLogicalElimination(options) && !attribute.SimpleAttribute? then Union(buckets, IndexRetrievalCost)
      else UnionAll(buckets, IndexRetrievalCost)
    }

    /**
     * retrieve: Equal reads the bucket stored under the exact value,
     * StringEndsWith the union of the buckets of every key ending with the
     * suffix, and any other query class fails.
     */
    function Retrieve(q: Query<string>, options: QueryOptions): (r: Result<View<O>, IndexError<string>>)
      reads this
      ensures r.Failure? <==> !SupportsQuery(q)
      ensures r.Failure? ==> r.error == UnsupportedQuery(q)
      ensures r.Success? ==> r.value.retrievalCost == IndexRetrievalCost
      ensures q.Equal? ==> r.Success? && Items(r.value) == multiset(Bucket(tree, q.value))
      ensures q.StringEndsWith? ==> r.Success? && (r.value.Union? || r.value.UnionAll?)
      ensures q.StringEndsWith? ==> (r.value.Union? <==> IsLogicalElimination(options) && !attribute.SimpleAttribute?)
      ensures q.StringEndsWith? ==> r.value.buckets.Keys <= tree.Keys && r.value.buckets == KeysEndingWith(tree, q.suffix)
    {
      match q
      case Equal(_, value) =>
        Success(Lookup(if value in tree then Some(tree[value]) else None, None, IndexRetrievalCost))
      case StringEndsWith(_, suffix) =>
        Success(UnionResultSets(KeysEndingWith(tree, suffix), options))
      case _ =>
        Failure(UnsupportedQuery(q))
    }

    /**
     * notifyObjectsAdded: for each object and each of its values, get or
     * create the bucket of the value and add the object to it.
     */
    method NotifyObjectsAdded(objects: seq<O>)
      requires Valid()
      modifies this
      ensures tree == AddObjects(old(tree), objects, GetValues(attribute))
      ensures Valid()
    {
      var i := 0;
      while i < |objects|
        invariant 0 <= i <= |objects|
        invariant tree == AddObjects(old(tree), objects[..i], GetValues(attribute))
      {
        var o := objects[i];
        var values := GetValues(attribute)(o);
        var j := 0;
        while j < |values|
          invariant 0 <= j <= |values|
          invariant tree == AddToBuckets(AddObjects(old(tree), objects[..i], GetValues(attribute)), o, values[..j])
        {
          var v := values[j];
          var valueSet: set<O>;
          if v in tree {
            valueSet := tree[v];
          } else {
            valueSet := {};
            tree := tree[v := valueSet];
          }
          tree := tree[v := valueSet + {o}];
          assert values[..j + 1] == values[..j] + [v];
          j := j + 1;
        }
        assert values[..j] == values;
        assert objects[..i + 1] == objects[..i] + [o];
        i := i + 1;
      }
      assert objects[..i] == objects;
      AddObjectsKeepsInvariants(old(tree), objects, GetValues(attribute));
    }

    /**
     * notifyObjectsRemoved: for each object and each of its values, skip a
     * value with no bucket, otherwise remove the object from the bucket and
     * drop the key once its bucket is empty.
     */
    method NotifyObjectsRemoved(objects: seq<O>)
      requires Valid()
      modifies this
      ensures tree == RemoveObjects(old(tree), objects, GetValues(attribute))
      ensures Valid()
    {
      var i := 0;
      while i < |objects|
        invariant 0 <= i <= |objects|
        invariant tree == RemoveObjects(old(tree), objects[..i], GetValues(attribute))
      {
        var o := objects[i];
        var values := GetValues(attribute)(o);
        var j := 0;
        while j < |values|
          invariant 0 <= j <= |values|
          invariant tree == RemoveFromBuckets(RemoveObjects(old(tree), objects[..i], GetValues(attribute)), o, values[..j])
        {
          var v := values[j];
          if v in tree {
            var valueSet := tree[v] - {o};
            tree := tree[v := valueSet];
            if valueSet == {} {
              tree := tree - {v};
            }
          }
          assert values[..j + 1] == values[..j] + [v];
          j := j + 1;
        }
        assert values[..j] == values;
        assert objects[..i + 1] == objects[..i] + [o];
        i := i + 1;
      }
      assert objects[..i] == objects;
      RemoveObjectsKeepsInvariants(old(tree), objects, GetValues(attribute));
    }

    /** init(collection): notifyObjectsAdded over the collection. */
    method Init(collection: seq<O>)
      requires Valid()
      modifies this
      ensures tree == AddObjects(old(tree), collection, GetValues(attribute))
      ensures Valid()
    {
      NotifyObjectsAdded(collection);
    }

    /** notifyObjectsCleared: a fresh, empty tree. */
    method NotifyObjectsCleared()
      modifies this
      ensures tree == map[]
      ensures Valid()
    {
      tree := map[];
    }
  }

  // ---------- What retrieval answers ----------

  /**
   * Equal: iteration, contains, size and merge cost all read the bucket
   * stored under the exact value; with no bucket the result is empty, contains
   * is false and size and merge cost are 0.
   */
  lemma EqualRetrieval<O>(idx: ReversedRadixTreeIndex<O>, name: AttributeName, value: string, options: QueryOptions, o: O)
    ensures var r := idx.Retrieve(Equal(name, value), options).value;
      && (Contains(r, o) <==> value in idx.tree && o in idx.tree[value])
      && Size(r) == |Bucket(idx.tree, value)|
      && MergeCost(r) == |Bucket(idx.tree, value)|
      && (value !in idx.tree ==> Items(r) == multiset{} && Size(r) == 0 && MergeCost(r) == 0)
  {
  }

  /**
   * StringEndsWith: an object is contained exactly when some key ending with
   * the suffix holds it; the merge cost is the total size of those buckets,
   * and the size counts repeats unless the union deduplicates.
   */
  lemma EndsWithRetrieval<O>(idx: ReversedRadixTreeIndex<O>, name: AttributeName, suffix: string, options: QueryOptions, o: O)
    ensures var r := idx.Retrieve(StringEndsWith(name, suffix), options).value;
      var matching := KeysEndingWith(idx.tree, suffix);
      && (Contains(r, o) <==> exists k :: k in idx.tree && EndsWith(k, suffix) && o in idx.tree[k])
      && MergeCost(r) == SumOfSizes(matching)
      && Size(r) == (if IsLogicalElimination(options) && !idx.attribute.SimpleAttribute? then |UnionOfBuckets(matching)| else SumOfSizes(matching))
  {
    var matching := KeysEndingWith(idx.tree, suffix);
    if exists k :: k in idx.tree && EndsWith(k, suffix) && o in idx.tree[k] {
      var k :| k in idx.tree && EndsWith(k, suffix) && o in idx.tree[k];
      assert k in matching;
    }
  }

  /**
   * On an index built by adding `objs` to an empty tree, StringEndsWith finds
   * exactly the added objects that have a value ending with the suffix.
   */
  lemma EndsWithFindsExactly<O>(objs: seq<O>, values: O -> seq<string>, suffix: string, o: O)
    ensures var matching := KeysEndingWith(AddObjects(map[], objs, values), suffix);
      (exists k :: k in matching && o in matching[k]) <==>
      (o in objs && exists v :: v in values(o) && EndsWith(v, suffix))
  {
    var t := AddObjects(map[], objs, values);
    var matching := KeysEndingWith(t, suffix);
    AddObjectsClosedForm(map[], objs, values);
    if exists k :: k in matching && o in matching[k] {
      var k :| k in matching && o in matching[k];
      assert o in Having(objs, values, k);
    }
    if o in objs && exists v :: v in values(o) && EndsWith(v, suffix) {
      var v :| v in values(o) && EndsWith(v, suffix);
      var i :| 0 <= i < |objs| && objs[i] == o;
      AddObjectsEffect(map[], objs, values);
      assert v in matching && o in matching[v];
    }
  }

  /** The cars "Accord", "Civic" and "Focus", each indexed by its own name. */
  function ModelName(s: string): seq<string> {
    [s]
  }

  /** Of "Accord", "Civic" and "Focus", a StringEndsWith "ord" finds "Accord" alone. */
  lemma EndsWithOrdFindsAccord(o: string)
    ensures var matching := KeysEndingWith(AddObjects(map[], ["Accord", "Civic", "Focus"], ModelName), "ord");
      (exists k :: k in matching && o in matching[k]) <==> o == "Accord"
  {
    var objs := ["Accord", "Civic", "Focus"];
    EndsWithFindsExactly(objs, ModelName, "ord", o);
    assert (exists v :: v in ModelName(o) && EndsWith(v, "ord")) <==> EndsWith(o, "ord") by {
      assert ModelName(o) == [o];
    }
    assert EndsWith("Accord", "ord") by {
      assert "Accord"[3..] == "ord";
    }
    assert !EndsWith("Civic", "ord") by {
      assert "Civic"[2..][0] == 'v';
    }
    assert !EndsWith("Focus", "ord") by {
      assert "Focus"[2..][0] == 'c';
    }
  }

  /**
   * The reason unionResultSets may skip deduplication for a SimpleAttribute:
   * every object has exactly one value, so an index holding objects only
   * under their own values has pairwise disjoint buckets, and the
   * concatenating union yields what the deduplicating one does.
   */
  lemma SingleValuedNeedsNoDeduplication<O(!new)>(tree: map<string, set<O>>, a: Attribute<O>, suffix: string, cost: nat)
    requires a.SimpleAttribute?
    requires StoredUnderOwnKeys(tree, GetValues(a))
    ensures var matching := KeysEndingWith(tree, suffix);
      Items(UnionAll(matching, cost)) == Items(Union(matching, cost))
  {
    var matching := KeysEndingWith(tree, suffix);
    forall k1, k2 | k1 in matching && k2 in matching && k1 != k2 ensures matching[k1] !! matching[k2] {
      forall o | o in matching[k1] ensures o !in matching[k2] {
        assert k1 in GetValues(a)(o);
        assert GetValues(a)(o) == [k1];
      }
    }
    DisjointUnionAllIsUnion(matching, cost);
  }

  /**
   * What the choice in unionResultSets guarantees: when logical elimination
   * is requested, or the attribute is a SimpleAttribute, a StringEndsWith on
   * a valid index yields every object at most once.
   */
  lemma EndsWithYieldsEachObjectOnce<O>(idx: ReversedRadixTreeIndex<O>, name: AttributeName, suffix: string, options: QueryOptions, o: O)
    requires idx.Valid()
    requires IsLogicalElimination(options) || idx.attribute.SimpleAttribute?
    ensures Items(idx.Retrieve(StringEndsWith(name, suffix), options).value)[o] <= 1
  {
    var r := idx.Retrieve(StringEndsWith(name, suffix), options).value;
    var matching := KeysEndingWith(idx.tree, suffix);
    if r.Union? {
      UnionYieldsOnce(matching, r.retrievalCost, o);
    } else {
      var a := idx.attribute;
      SumOfBucketsCounts(matching, o);
      var held := KeysHolding(matching, o);
      var v := a.getValue(o);
      assert held <= {v} by {
        forall k | k in held ensures k == v {
          assert k in GetValues(a)(o);
        }
      }
      SubsetSize(held, {v});
    }
  }
}
