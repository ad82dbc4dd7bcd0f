/**
 * CompoundIndex: an index on a combination of attributes, keyed by the tuple
 * of their values (CompoundValueTuple). It answers only CompoundQuery on the
 * same combination. An index built with a Quantizer stores each object under
 * the quantized tuple and filters the bucket through the original query on
 * the way out (QuantizedResultSet).
 *
 * The bucket maintenance is inherited from AbstractMapBasedAttributeIndex,
 * which is not part of this model; it is taken to be the add/remove of
 * BucketMaps over the quantized tuples of each object.
 */
module Compound {
  import opened Wrappers
  import opened Queries
  import opened BucketMaps
  import opened ResultViews

  /** INDEX_RETRIEVAL_COST. */
  const IndexRetrievalCost: nat := 20

  /** getQuantizedValue: the tuple itself without a quantizer, the quantizer's value with one. */
  function QuantizedValue<V>(quantizer: Option<seq<V> -> seq<V>>, tuple: seq<V>): seq<V> {
    match quantizer
    case None => tuple
    case Some(quantize) => quantize(tuple)
  }

  /** The keys an object is stored under: the quantized value of each of its tuples. */
  function StoredKeys<V, O>(tuplesOf: O -> seq<seq<V>>, quantizer: Option<seq<V> -> seq<V>>): O -> seq<seq<V>> {
    o => seq(|tuplesOf(o)|, i requires 0 <= i < |tuplesOf(o)| => QuantizedValue(quantizer, tuplesOf(o)[i]))
  }

  lemma StoredKeysOf<V, O>(tuplesOf: O -> seq<seq<V>>, quantizer: Option<seq<V> -> seq<V>>, o: O, key: seq<V>)
    ensures key in StoredKeys(tuplesOf, quantizer)(o) <==> exists t :: t in tuplesOf(o) && QuantizedValue(quantizer, t) == key
  {
    var ks := StoredKeys(tuplesOf, quantizer)(o);
    if exists t :: t in tuplesOf(o) && QuantizedValue(quantizer, t) == key {
      var t :| t in tuplesOf(o) && QuantizedValue(quantizer, t) == key;
      var i :| 0 <= i < |tuplesOf(o)| && tuplesOf(o)[i] == t;
      assert ks[i] == key;
    }
  }

  class CompoundIndex<V(==), O(==)> {
    /** The CompoundAttribute: the indexed attributes, in order. */
    const attribute: seq<AttributeName>
    /** CompoundAttribute.getValues: the value tuples of an object. */
    const tuplesOf: O -> seq<seq<V>>
    /** The Quantizer of an index built by withQuantizerOnAttributes. */
    const quantizer: Option<seq<V> -> seq<V>>
    /** The buckets, keyed by (quantized) value tuple. */
    var indexMap: map<seq<V>, set<O>>

    /** Every stored bucket is non-empty and holds only objects stored under that key. */
    ghost predicate Valid()
      reads this
    {
      NonEmptyBuckets(indexMap) && StoredUnderOwnKeys(indexMap, StoredKeys(tuplesOf, quantizer))
    }

    /** onAttributes: an empty index without a quantizer. */
    constructor OnAttributes(attribute: seq<AttributeName>, tuplesOf: O -> seq<seq<V>>)
      ensures this.attribute == attribute && this.tuplesOf == tuplesOf
      ensures quantizer == None && indexMap == map[]
      ensures Valid()
    {
      this.attribute := attribute;
      this.tuplesOf := tuplesOf;
      quantizer := None;
      indexMap := map[];
    }

    /** withQuantizerOnAttributes: an empty index that quantizes its keys. */
    constructor WithQuantizerOnAttributes(quantize: seq<V> -> seq<V>, attribute: seq<AttributeName>, tuplesOf: O -> seq<seq<V>>)
      ensures this.attribute == attribute && this.tuplesOf == tuplesOf
      ensures quantizer == Some(quantize) && indexMap == map[]
      ensures Valid()
    {
      this.attribute := attribute;
      this.tuplesOf := tuplesOf;
      quantizer := Some(quantize);
      indexMap := map[];
    }

    /** supportsQuery: a CompoundQuery on exactly this combination of attributes, in this order. */
    function SupportsQuery(q: Query<V>): (r: bool)
      ensures r <==> q.CompoundQuery? && q.compoundAttribute == attribute
    {
      if q.CompoundQuery? then attribute == q.compoundAttribute else false
    }

    function IsMutable(): (r: bool)
      ensures r
    {
      true
    }

    /** getQuantizedValue, as overridden by an index built with a quantizer. */
    function GetQuantizedValue(tuple: seq<V>): (r: seq<V>)
      ensures quantizer.None? ==> r == tuple
      ensures quantizer.Some? ==> r == quantizer.value(tuple)
    {
      QuantizedValue(quantizer, tuple)
    }

    /**
     * filterForQuantization: no filter without a quantizer; with one, keep
     * only the objects the original query matches.
     */
    function FilterForQuantization(q: Query<V>, leaf: (Query<V>, O) -> bool): (r: Option<O -> bool>)
      ensures r.None? <==> quantizer.None?
    {
      if quantizer.None? then None else Some(o => Matches(q, o, leaf))
    }

    /**
     * retrieve: a CompoundQuery reads the bucket stored under the quantized
     * value of its tuple, through filterForQuantization; any other query
     * class fails. The query options are not read.
     */
    function Retrieve(q: Query<V>, leaf: (Query<V>, O) -> bool): (r: Result<View<O>, IndexError<V>>)
      reads this
      ensures r.Failure? <==> !q.CompoundQuery?
      ensures r.Failure? ==> r.error == UnsupportedQuery(q)
      ensures r.Success? ==> r.value.Lookup? && r.value.retrievalCost == IndexRetrievalCost
      ensures r.Success? ==> MergeCost(r.value) == |Bucket(indexMap, GetQuantizedValue(q.tuple))|
      ensures r.Success? && quantizer.None? ==> Items(r.value) == multiset(Bucket(indexMap, q.tuple))
    {
      if q.CompoundQuery? then
        var key := GetQuantizedValue(q.tuple);
        Success(Lookup(if key in indexMap then Some(indexMap[key]) else None, FilterForQuantization(q, leaf), IndexRetrievalCost))
      else
        Failure(UnsupportedQuery(q))
    }

    /** The inherited notifyObjectsAdded, over the (quantized) tuples of each object. */
    method NotifyObjectsAdded(objects: seq<O>)
      requires Valid()
      modifies this
      ensures indexMap == AddObjects(old(indexMap), objects, StoredKeys(tuplesOf, quantizer))
      ensures Valid()
    {
      AddObjectsKeepsInvariants(indexMap, objects, StoredKeys(tuplesOf, quantizer));
      indexMap := AddObjects(indexMap, objects, StoredKeys(tuplesOf, quantizer));
    }

    /** The inherited notifyObjectsRemoved. */
    method NotifyObjectsRemoved(objects: seq<O>)
      requires Valid()
      modifies this
      ensures indexMap == RemoveObjects(old(indexMap), objects, StoredKeys(tuplesOf, quantizer))
      ensures Valid()
    {
      RemoveObjectsKeepsInvariants(indexMap, objects, StoredKeys(tuplesOf, quantizer));
      indexMap := RemoveObjects(indexMap, objects, StoredKeys(tuplesOf, quantizer));
    }

    /** The inherited notifyObjectsCleared. */
    method NotifyObjectsCleared()
      modifies this
      ensures indexMap == map[]
      ensures Valid()
    {
      indexMap := map[];
    }
  }

  // ---------- What retrieval answers ----------

  /** The filter of a quantizing index keeps exactly the objects the original query matches. */
  lemma QuantizedFilterKeepsMatches<V, O>(idx: CompoundIndex<V, O>, q: Query<V>, leaf: (Query<V>, O) -> bool, o: O)
    requires idx.quantizer.Some?
    ensures idx.FilterForQuantization(q, leaf).Some?
    ensures idx.FilterForQuantization(q, leaf).value(o) == Matches(q, o, leaf)
  {
  }

  /** The objects of `bucket` a retrieval lets through: all of them, or with a quantizer those `q` matches. */
  ghost function Passing<V, O>(bucket: set<O>, quantized: bool, q: Query<V>, leaf: (Query<V>, O) -> bool): set<O> {
    set x | x in bucket && (quantized ==> Matches(q, x, leaf))
  }

  /**
   * A CompoundQuery: iteration yields, once each, the objects of the bucket
   * under the quantized tuple that pass the filter (all of them without a
   * quantizer, those the query matches with one); contains(o) and size()
   * agree with that; a missing bucket gives an empty result of size 0; the
   * merge cost is the raw bucket's size, never below the size.
   */
  lemma CompoundRetrieval<V, O>(idx: CompoundIndex<V, O>, q: Query<V>, leaf: (Query<V>, O) -> bool, o: O)
    requires q.CompoundQuery?
    ensures var r := idx.Retrieve(q, leaf).value;
      var key := idx.GetQuantizedValue(q.tuple);
      var kept := if key in idx.indexMap then Passing(idx.indexMap[key], idx.quantizer.Some?, q, leaf) else {};
      && Items(r) == multiset(kept)
      && Size(r) == |kept|
      && (Contains(r, o) <==> key in idx.indexMap && o in idx.indexMap[key] && (idx.quantizer.Some? ==> Matches(q, o, leaf)))
      && (key !in idx.indexMap ==> Items(r) == multiset{} && Size(r) == 0 && MergeCost(r) == 0)
      && Size(r) <= MergeCost(r)
  {
    var r := idx.Retrieve(q, leaf).value;
    var key := idx.GetQuantizedValue(q.tuple);
    if key in idx.indexMap {
      var b := idx.indexMap[key];
      if idx.quantizer.Some? {
        assert Kept(b, r.filter.value) == Passing(b, true, q, leaf);
      } else {
        assert Passing(b, false, q, leaf) == b;
      }
    }
    SizeAtMostMergeCost(r);
  }

  /**
   * On an index built by adding `objs` to an empty map, a CompoundQuery on
   * tuple `t` finds exactly the added objects having `t`, with or without a
   * quantizer, provided the query matches exactly the objects having its
   * tuple (the contract of CompoundQuery.matches).
   */
  lemma RetrieveFindsExactly<V, O>(idx: CompoundIndex<V, O>, objs: seq<O>, t: seq<V>, leaf: (Query<V>, O) -> bool, o: O)
    requires idx.indexMap == AddObjects(map[], objs, StoredKeys(idx.tuplesOf, idx.quantizer))
    requires forall x :: leaf(CompoundQuery(idx.attribute, t), x) <==> t in idx.tuplesOf(x)
    ensures Contains(idx.Retrieve(CompoundQuery(idx.attribute, t), leaf).value, o) <==> o in objs && t in idx.tuplesOf(o)
  {
    var q := CompoundQuery(idx.attribute, t);
    var keysOf := StoredKeys(idx.tuplesOf, idx.quantizer);
    var key := idx.GetQuantizedValue(t);
    CompoundRetrieval(idx, q, leaf, o);
    AddObjectsClosedForm(map[], objs, keysOf);
    StoredKeysOf(idx.tuplesOf, idx.quantizer, o, key);
    if o in objs && t in idx.tuplesOf(o) {
      assert o in Having(objs, keysOf, key);
      KeysOfAllHaveObjects(objs, keysOf, key);
    }
  }

  /**
   * The order of the attributes matters: an index on (make, model) accepts a
   * CompoundQuery on (make, model) and refuses one on (model, make).
   */
  lemma AttributeOrderMatters<V, O>(idx: CompoundIndex<V, O>, t: seq<V>)
    requires idx.attribute == ["make", "model"]
    ensures idx.SupportsQuery(CompoundQuery(["make", "model"], t))
    ensures !idx.SupportsQuery(CompoundQuery(["model", "make"], t))
  {
    assert ["make", "model"] != ["model", "make"] by {
      assert ["make", "model"][0] != ["model", "make"][0];
    }
  }

  /**
   * An index over (make, model) holding c1 under ("Honda", "Civic") answers
   * a CompoundQuery on ("Honda", "Civic") with c1 alone.
   */
  lemma HondaCivicFindsC1<O>(idx: CompoundIndex<string, O>, c1: O, leaf: (Query<string>, O) -> bool, o: O)
    requires idx.attribute == ["make", "model"]
    requires idx.tuplesOf(c1) == [["Honda", "Civic"]]
    requires idx.indexMap == AddObjects(map[], [c1], StoredKeys(idx.tuplesOf, idx.quantizer))
    requires forall x :: leaf(CompoundQuery(idx.attribute, ["Honda", "Civic"]), x) <==> ["Honda", "Civic"] in idx.tuplesOf(x)
    ensures Contains(idx.Retrieve(CompoundQuery(["make", "model"], ["Honda", "Civic"]), leaf).value, o) <==> o == c1
  {
    RetrieveFindsExactly(idx, [c1], ["Honda", "Civic"], leaf, o);
  }
}
