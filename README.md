# CQEngine indexes and logical queries, in Dafny

This project models three pieces of the CQEngine collection query engine and proves what they promise.

- **ReversedRadixTreeIndex** is an index on a string attribute. It keeps one bucket of objects per attribute value and answers `Equal` and `StringEndsWith` queries. The index is a class whose `tree` field is the map from each value to its bucket. `notifyObjectsAdded` and `notifyObjectsRemoved` are the nested loops of the Java code. `retrieve` builds a result view from the current tree.
- **CompoundIndex** is an index on a combination of attributes, keyed by the tuple of their values. It answers `CompoundQuery` on the same combination. An optional quantizer changes the key, and the result is then filtered through the original query.
- **And** and **Not** are the logical query nodes. The model covers their construction rules, matching, structural equality, the hash code they cache, and `Not.toString`.

The result sets the indexes return are lazy views in Java. Here a `View` records the buckets it reads. `Items`, `Contains`, `Size` and `MergeCost` give what its iterator, `contains`, `size` and `getMergeCost` answer.

The bucket maintenance is written once, in `BucketMaps`. It has step functions that follow the loops, closed forms, and lemmas:
- added objects are present;
- untouched keys keep their buckets;
- no stored bucket is empty;
- adding objects no bucket holds and then removing them restores the map.

Files:
- `wrappers.dfy`: Option and Result.
- `queries.dfy`: the query datatype, And and Not.
- `bucket_maps.dfy`: key-to-bucket maintenance.
- `result_views.dfy`: result views and query options.
- `reversed_radix_tree_index.dfy`: the reversed radix tree index.
- `compound_index.dfy`: the compound index.

## Model

| member | source | states |
|---|---|---|
| ReversedRadix.ReversedRadixTreeIndex.constructor | cqengine/tags/1.0.2/src/main/java/com/googlecode/cqengine/index/radixreversed/ReversedRadixTreeIndex.java:57-70 | A new index has an empty tree, which satisfies the invariant |
| ReversedRadix.GetValues | cqengine/tags/1.0.2/src/main/java/com/googlecode/cqengine/index/radixreversed/ReversedRadixTreeIndex.java:196 | Attribute.getValues: a SimpleAttribute has exactly one value per object, any other attribute a list |
| ReversedRadix.ReversedRadixTreeIndex.IsMutable | cqengine/tags/1.0.2/src/main/java/com/googlecode/cqengine/index/radixreversed/ReversedRadixTreeIndex.java:72-75 | The index is always mutable |
| ReversedRadix.ReversedRadixTreeIndex.SupportsQuery | cqengine/tags/1.0.2/src/main/java/com/googlecode/cqengine/index/radixreversed/ReversedRadixTreeIndex.java:65-69 | The supported query classes are exactly Equal and StringEndsWith; no logical query is supported |
| ReversedRadix.ReversedRadixTreeIndex.Retrieve | cqengine/tags/1.0.2/src/main/java/com/googlecode/cqengine/index/radixreversed/ReversedRadixTreeIndex.java:77-147 | Fails with UnsupportedQuery exactly when the query is neither Equal nor StringEndsWith. Retrieval cost is always 51. Equal yields the multiset of the bucket stored under the exact value, empty when absent. StringEndsWith yields a union over exactly the buckets whose key ends with the suffix, and the union deduplicates iff the options request logical elimination and the attribute is not a SimpleAttribute |
| ReversedRadix.EqualRetrieval | cqengine/tags/1.0.2/src/main/java/com/googlecode/cqengine/index/radixreversed/ReversedRadixTreeIndex.java:83-108 | For Equal, contains, size and merge cost all read the stored bucket. A missing bucket gives an empty result with contains false, size 0 and merge cost 0 |
| ReversedRadix.EndsWithRetrieval | cqengine/tags/1.0.2/src/main/java/com/googlecode/cqengine/index/radixreversed/ReversedRadixTreeIndex.java:111-142 | For StringEndsWith, contains(o) holds iff some key ending with the suffix holds o. The merge cost is the total size of those buckets. The size is the number of distinct objects when logical elimination is requested on an attribute that is not a SimpleAttribute, and the total bucket size otherwise |
| ReversedRadix.KeysEndingWith | cqengine/tags/1.0.2/src/main/java/com/googlecode/cqengine/index/radixreversed/ReversedRadixTreeIndex.java:116 | The buckets returned are exactly those of the keys whose reversal starts with the reversed suffix, unchanged |
| ReversedRadix.EndsWithIsReversedPrefix | cqengine/tags/1.0.2/src/main/java/com/googlecode/cqengine/index/radixreversed/ReversedRadixTreeIndex.java:57 | A key ends with s iff the reversed key starts with the reversed s, which is the lookup a tree over reversed keys performs |
| ReversedRadix.ReversedRadixTreeIndex.UnionResultSets | cqengine/tags/1.0.2/src/main/java/com/googlecode/cqengine/index/radixreversed/ReversedRadixTreeIndex.java:160-177 | Deduplicating union iff logical elimination is requested and the attribute is not a SimpleAttribute, concatenating union otherwise. It unions the given buckets and reports cost 51 |
| ReversedRadix.SingleValuedNeedsNoDeduplication | cqengine/tags/1.0.2/src/main/java/com/googlecode/cqengine/index/radixreversed/ReversedRadixTreeIndex.java:153-154 | For a SimpleAttribute, whose objects have exactly one value each, an index holding objects only under their own values gives the same multiset from the concatenating union over the matching buckets as from the deduplicating one |
| ReversedRadix.EndsWithYieldsEachObjectOnce | cqengine/tags/1.0.2/src/main/java/com/googlecode/cqengine/index/radixreversed/ReversedRadixTreeIndex.java:160-177 | On a valid index, when logical elimination is requested or the attribute is a SimpleAttribute, a StringEndsWith yields every object at most once |
| ReversedRadix.ReversedRadixTreeIndex.NotifyObjectsAdded | cqengine/tags/1.0.2/src/main/java/com/googlecode/cqengine/index/radixreversed/ReversedRadixTreeIndex.java:193-214 | The nested loops leave exactly the tree AddObjects specifies, and the invariant (non-empty buckets, objects only under their own values) still holds |
| ReversedRadix.ReversedRadixTreeIndex.NotifyObjectsRemoved | cqengine/tags/1.0.2/src/main/java/com/googlecode/cqengine/index/radixreversed/ReversedRadixTreeIndex.java:220-235 | The nested loops leave exactly the tree RemoveObjects specifies: absent values are skipped and emptied keys are deleted. The invariant still holds |
| ReversedRadix.ReversedRadixTreeIndex.Init | cqengine/tags/1.0.2/src/main/java/com/googlecode/cqengine/index/radixreversed/ReversedRadixTreeIndex.java:241-243 | init is notifyObjectsAdded over the collection |
| ReversedRadix.ReversedRadixTreeIndex.NotifyObjectsCleared | cqengine/tags/1.0.2/src/main/java/com/googlecode/cqengine/index/radixreversed/ReversedRadixTreeIndex.java:249-251 | The tree becomes empty, and the invariant holds |
| ReversedRadix.EndsWithFindsExactly | cqengine/tags/1.0.2/src/main/java/com/googlecode/cqengine/index/radixreversed/ReversedRadixTreeIndex.java:111-142 | On an index built by adding objs to an empty tree, a StringEndsWith finds o iff o was added and one of its values ends with the suffix |
| ReversedRadix.EndsWithOrdFindsAccord | cqengine/tags/1.0.2/src/main/java/com/googlecode/cqengine/index/radixreversed/ReversedRadixTreeIndex.java:111-142 | Of "Accord", "Civic" and "Focus", a StringEndsWith "ord" finds "Accord" alone |
| BucketMaps.AddObjects | cqengine/tags/1.0.2/src/main/java/com/googlecode/cqengine/index/radixreversed/ReversedRadixTreeIndex.java:195-213 | Both add loops, one object and one value at a time. Every existing bucket is reused and keeps what it held |
| BucketMaps.AddObjectsEffect | cqengine/tags/1.0.2/src/main/java/com/googlecode/cqengine/index/radixreversed/ReversedRadixTreeIndex.java:193-214 | After the add, every object is in the bucket of each of its values. An existing bucket keeps its objects. A new key belongs to some added object. A key no added object has is unchanged |
| BucketMaps.AddObjectsClosedForm | cqengine/tags/1.0.2/src/main/java/com/googlecode/cqengine/index/radixreversed/ReversedRadixTreeIndex.java:195-213 | The loop-by-loop add equals the closed form: each key's old bucket plus the added objects having that key, whatever the order |
| BucketMaps.AddObjectsKeepsInvariants | cqengine/tags/1.0.2/src/main/java/com/googlecode/cqengine/index/radixreversed/ReversedRadixTreeIndex.java:200-211 | The add keeps every bucket non-empty and every object under its own keys |
| BucketMaps.RemoveObjects | cqengine/tags/1.0.2/src/main/java/com/googlecode/cqengine/index/radixreversed/ReversedRadixTreeIndex.java:222-234 | Both remove loops, one object and one value at a time. No key appears and no bucket grows |
| BucketMaps.RemoveObjectsEffect | cqengine/tags/1.0.2/src/main/java/com/googlecode/cqengine/index/radixreversed/ReversedRadixTreeIndex.java:220-235 | After the remove, no removed object is left in the bucket of any of its values, no key is added, buckets only shrink, and a key no removed object has is unchanged |
| BucketMaps.RemoveObjectsClosedForm | cqengine/tags/1.0.2/src/main/java/com/googlecode/cqengine/index/radixreversed/ReversedRadixTreeIndex.java:222-234 | The loop-by-loop remove equals the closed form: each bucket minus the removed objects having its key, with a key dropped once its bucket is empty |
| BucketMaps.RemoveObjectsKeepsInvariants | cqengine/tags/1.0.2/src/main/java/com/googlecode/cqengine/index/radixreversed/ReversedRadixTreeIndex.java:225-232 | The remove keeps every stored bucket non-empty, because a bucket that becomes empty loses its key |
| BucketMaps.RemovedObjectsAreGone | cqengine/tags/1.0.2/src/main/java/com/googlecode/cqengine/index/radixreversed/ReversedRadixTreeIndex.java:220-235 | With objects stored only under their own keys, a removed object is left in no bucket at all |
| BucketMaps.AddThenRemoveRestores | cqengine/tags/1.0.2/src/main/java/com/googlecode/cqengine/index/radixreversed/ReversedRadixTreeIndex.java:193-235 | Adding objects no bucket holds and then removing them restores the map exactly |
| BucketMaps.KeysOfAllHaveObjects | cqengine/tags/1.0.2/src/main/java/com/googlecode/cqengine/index/radixreversed/ReversedRadixTreeIndex.java:195-197 | A key is among the keys of the added objects iff some added object has it |
| ResultViews.Items | cqengine/tags/1.0.2/src/main/java/com/googlecode/cqengine/index/radixreversed/ReversedRadixTreeIndex.java:84-88 | What iterating a view yields: the bucket for a lookup, the objects passing the filter for a filtered lookup, every bucket in turn for a concatenating union, and each held object once for a deduplicating union |
| ResultViews.Contains | cqengine/tags/1.0.2/src/main/java/com/googlecode/cqengine/index/radixreversed/ReversedRadixTreeIndex.java:89-93 | contains(o) of a view: o is in the looked-up bucket and passes its filter, or some bucket of a union holds o |
| ResultViews.Size | cqengine/tags/1.0.2/src/main/java/com/googlecode/cqengine/index/radixreversed/ReversedRadixTreeIndex.java:94-98 | size() of a view: the bucket size or the number of objects passing the filter for a lookup, the sum of bucket sizes for a concatenating union, and the number of distinct objects for a deduplicating union |
| ResultViews.MergeCost | cqengine/tags/1.0.2/src/main/java/com/googlecode/cqengine/index/radixreversed/ReversedRadixTreeIndex.java:103-108 | getMergeCost() of a view: the raw bucket size (0 when absent) for a lookup, filtered or not, and the sum of bucket sizes for a union |
| ResultViews.IsLogicalElimination | cqengine/tags/1.0.2/src/main/java/com/googlecode/cqengine/index/radixreversed/ReversedRadixTreeIndex.java:161 | Logical elimination is requested iff the deduplication option is present and set to LogicalElimination |
| ResultViews.ViewFacesAgree | cqengine/tags/1.0.2/src/main/java/com/googlecode/cqengine/index/radixreversed/ReversedRadixTreeIndex.java:83-142 | For every view, contains(o) holds exactly for the objects iteration yields, and size() is the number of objects yielded |
| ResultViews.UnionYieldsOnce | cqengine/tags/1.0.2/src/main/java/com/googlecode/cqengine/index/radixreversed/ReversedRadixTreeIndex.java:162-167 | A deduplicating union yields each object held by some bucket exactly once |
| ResultViews.UnionAllYieldsPerBucket | cqengine/tags/1.0.2/src/main/java/com/googlecode/cqengine/index/radixreversed/ReversedRadixTreeIndex.java:170-175 | A concatenating union yields an object once per bucket that holds it |
| ResultViews.DisjointUnionAllIsUnion | cqengine/tags/1.0.2/src/main/java/com/googlecode/cqengine/index/radixreversed/ReversedRadixTreeIndex.java:153-154 | Over pairwise disjoint buckets the two unions yield the same multiset |
| ResultViews.SizeAtMostMergeCost | cqengine/tags/0.9.1/src/main/java/com/googlecode/cqengine/index/compound/CompoundIndex.java:132-135 | The merge cost never falls below the size, because filtering and deduplication only shrink the raw buckets |
| Compound.CompoundIndex.OnAttributes | cqengine/tags/0.9.1/src/main/java/com/googlecode/cqengine/index/compound/CompoundIndex.java:61-66 | A new index has no quantizer and an empty map |
| Compound.CompoundIndex.WithQuantizerOnAttributes | cqengine/tags/0.9.1/src/main/java/com/googlecode/cqengine/index/compound/CompoundIndex.java:200-218 | A new index carries the given quantizer and an empty map |
| Compound.CompoundIndex.SupportsQuery | cqengine/tags/0.9.1/src/main/java/com/googlecode/cqengine/index/compound/CompoundIndex.java:77-83 | True iff the query is a CompoundQuery whose compound attribute is this index's attribute list, in the same order |
| Compound.AttributeOrderMatters | cqengine/tags/0.9.1/src/main/java/com/googlecode/cqengine/index/compound/CompoundIndex.java:77-83 | An index on (make, model) supports a CompoundQuery on (make, model) and not one on (model, make) |
| Compound.CompoundIndex.IsMutable | cqengine/tags/0.9.1/src/main/java/com/googlecode/cqengine/index/compound/CompoundIndex.java:97-100 | The index is always mutable |
| Compound.CompoundIndex.GetQuantizedValue | cqengine/tags/0.9.1/src/main/java/com/googlecode/cqengine/index/compound/CompoundIndex.java:213-216 | Without a quantizer the key is the tuple itself. With one, the key is the quantizer's value of the tuple |
| Compound.CompoundIndex.FilterForQuantization | cqengine/tags/0.9.1/src/main/java/com/googlecode/cqengine/index/compound/CompoundIndex.java:175-177 | Without a quantizer there is no filter, so the stored bucket is returned unchanged. With a quantizer there is always a filter |
| Compound.QuantizedFilterKeepsMatches | cqengine/tags/0.9.1/src/main/java/com/googlecode/cqengine/index/compound/CompoundIndex.java:208-211 | The filter of a quantizing index keeps exactly the objects the original query matches |
| Compound.CompoundIndex.Retrieve | cqengine/tags/0.9.1/src/main/java/com/googlecode/cqengine/index/compound/CompoundIndex.java:105-142 | Fails with UnsupportedQuery exactly when the query is not a CompoundQuery. Retrieval cost is 20. The merge cost is the size of the raw bucket under the quantized tuple, or 0. Without a quantizer the result is exactly that bucket |
| Compound.CompoundRetrieval | cqengine/tags/0.9.1/src/main/java/com/googlecode/cqengine/index/compound/CompoundIndex.java:111-136 | Iteration yields once each the objects of the bucket under the quantized tuple, all of them without a quantizer and those the query matches with one. size() is their number and contains(o) holds exactly for them. A missing bucket gives an empty result with size and merge cost 0. Size never exceeds merge cost |
| Compound.RetrieveFindsExactly | cqengine/tags/0.9.1/src/main/java/com/googlecode/cqengine/index/compound/CompoundIndex.java:106-136 | On an index built by adding objs, a CompoundQuery on tuple t finds exactly the added objects having t, with or without a quantizer |
| Compound.HondaCivicFindsC1 | cqengine/tags/0.9.1/src/main/java/com/googlecode/cqengine/index/compound/CompoundIndex.java:106-136 | An index over (make, model) holding c1 under ("Honda", "Civic") answers that tuple with c1 alone |
| Compound.StoredKeysOf | cqengine/tags/0.9.1/src/main/java/com/googlecode/cqengine/index/compound/CompoundIndex.java:213-216 | An object is stored under a key iff one of its tuples quantizes to that key |
| Compound.CompoundIndex.NotifyObjectsAdded | cqengine/tags/0.9.1/src/main/java/com/googlecode/cqengine/index/compound/CompoundIndex.java:48-53 | The inherited add leaves exactly AddObjects over the quantized tuples, and the invariant holds |
| Compound.CompoundIndex.NotifyObjectsRemoved | cqengine/tags/0.9.1/src/main/java/com/googlecode/cqengine/index/compound/CompoundIndex.java:48-53 | The inherited remove leaves exactly RemoveObjects over the quantized tuples, and the invariant holds |
| Compound.CompoundIndex.NotifyObjectsCleared | cqengine/tags/0.9.1/src/main/java/com/googlecode/cqengine/index/compound/CompoundIndex.java:48-53 | The map becomes empty, and the invariant holds |
| Queries.NewAnd | cqengine/tags/0.9.1/src/main/java/com/googlecode/cqengine/query/logical/And.java:35-42 | Construction fails with the supplied count iff there are fewer than 2 children. Otherwise it keeps the children as given and caches their List hash code, and a node built from well-formed children is well-formed |
| Queries.Matches | cqengine/tags/0.9.1/src/main/java/com/googlecode/cqengine/query/logical/And.java:48-62 | And matches o iff every child matches o, whatever the split into simple and logical children. Not matches iff its child does not. A leaf answers through its own matches |
| Queries.Equals | cqengine/tags/0.9.1/src/main/java/com/googlecode/cqengine/query/logical/And.java:64-74 | equals is reflexive, the this == o shortcut. An And compares child lists element by element, a Not compares negated queries |
| Queries.HashCode | cqengine/tags/0.9.1/src/main/java/com/googlecode/cqengine/query/logical/And.java:80-83 | hashCode() returns the value cached at construction for And and Not, and the leaf class's own hash otherwise |
| Queries.CachedHashIsComputed | cqengine/tags/0.9.1/src/main/java/com/googlecode/cqengine/query/logical/And.java:41 | On a node its constructor built, the cached hash of an And is the List hash of its children and that of a Not is its child's hash |
| Queries.AndOfTwo | cqengine/tags/0.9.1/src/main/java/com/googlecode/cqengine/query/logical/And.java:35-62 | A two-child And always constructs and is the conjunction of its children |
| Queries.SplitIsPartition | cqengine/tags/0.9.1/src/main/java/com/googlecode/cqengine/query/logical/And.java:50-59 | The simple and logical sub-lists together hold every child exactly as often as the child list does |
| Queries.AllMatchInOrder | cqengine/tags/0.9.1/src/main/java/com/googlecode/cqengine/query/logical/And.java:50-61 | The two early-return loops answer true iff every child in the simple-then-logical order matches |
| Queries.EvaluatedIsShortCircuit | cqengine/tags/0.9.1/src/main/java/com/googlecode/cqengine/query/logical/And.java:50-59 | The children evaluated are a prefix of the order, every one but the last matched, and the answer is true iff all were evaluated and the last matched |
| Queries.AndStopsAtFirstFailure | cqengine/tags/0.9.1/src/main/java/com/googlecode/cqengine/query/logical/And.java:49-62 | matches checks simple children before logical ones and returns false at the first child that fails |
| Queries.SimpleQueries | cqengine/tags/0.9.1/src/main/java/com/googlecode/cqengine/query/logical/And.java:50 | The simple sub-list holds exactly the non-logical children |
| Queries.LogicalQueries | cqengine/tags/0.9.1/src/main/java/com/googlecode/cqengine/query/logical/And.java:55 | The logical sub-list holds exactly the logical children |
| Queries.EvaluationOrder | cqengine/tags/0.9.1/src/main/java/com/googlecode/cqengine/query/logical/And.java:50-59 | The evaluation order holds exactly the children |
| Queries.ListHashCode | cqengine/tags/0.9.1/src/main/java/com/googlecode/cqengine/query/logical/And.java:76-78 | The Java List hash of the children: 31 * h + hash from 1, wrapping at 32 bits |
| Queries.Wrap32 | cqengine/tags/0.9.1/src/main/java/com/googlecode/cqengine/query/logical/And.java:76-78 | The Java int result is congruent to the exact value modulo 2^32, and equal to it when it is in range |
| Queries.EqualsIsStructural | cqengine/tags/0.9.1/src/main/java/com/googlecode/cqengine/query/logical/And.java:64-74 | On well-formed nodes, equals holds iff the two nodes are the same (an And's child lists are equal element by element, a Not's negated queries are equal) |
| Queries.EqualsImpliesEqualHashCodes | cqengine/tags/0.9.1/src/main/java/com/googlecode/cqengine/query/logical/And.java:76-83 | Equal well-formed nodes have equal cached hash codes |
| Queries.NewNot | cqengine/tags/1.2.1/src/main/java/com/googlecode/cqengine/query/logical/Not.java:35-43 | The node's one child is the argument (getNegatedQuery), its cached hash is the child's hash, and well-formedness is preserved |
| Queries.DoubleNegation | cqengine/tags/1.2.1/src/main/java/com/googlecode/cqengine/query/logical/Not.java:49-52 | Not matches o iff its child does not, so two negations cancel |
| Queries.NotToString | cqengine/tags/1.2.1/src/main/java/com/googlecode/cqengine/query/logical/Not.java:75-82 | toString is "not(", the negated query's rendering, then ")" |

## Left out

- Concurrency is not modelled: the volatile tree handle, the concurrent sets, the putIfAbsent race and the benign remove/add race. Maintenance is sequential.
- The concurrent radix tree library is not part of this model. The tree is a map from key to bucket, and "keys ending with s" is a filter over its keys. Whether the library's set of result sets would merge two equal buckets under different keys is not modelled: buckets stay keyed by their key.
- The matching, hashCode and toString of leaf query classes (Equal, StringEndsWith, CompoundQuery and the rest) are not part of this model. They are the parameters `leaf`, `lh` and `show`.
- The value functions of the attributes, CompoundAttribute.getValues and the Quantizer are parameters. An attribute is either a SimpleAttribute with exactly one value per object or some other attribute with a list of values. CompoundAttribute.equals is taken to be equality of the attribute lists, in order.
- DeduplicationOption is reduced to the one option these indexes read. The compound index ignores the query options, so its Retrieve has none.
- The internals of ResultSetUnion, ResultSetUnionAll and QuantizedResultSet are not part of this model:
  - a union's merge cost is taken to be the sum of its bucket sizes;
  - the quantized result set is taken to keep the objects the query matches.
- Compound.CompoundIndex.NotifyObjectsAdded, NotifyObjectsRemoved and NotifyObjectsCleared: the inherited AbstractMapBasedAttributeIndex code is not part of this model. These are the BucketMaps step functions over the quantized tuples, assigned in one step rather than looped.
- Compound.CompoundIndex.Retrieve: subclasses of CompoundQuery are not modelled. Every CompoundQuery is exactly of that class, so the instanceof test of supportsQuery and the exact-class test of retrieve agree here.
- Queries.ListHashCode assumes the child collection of an And is a List. The hash of other collection kinds is not modelled.
- Queries.Equals takes the leaf classes' equals to be structural equality.
- Result views are snapshots. The Java result sets look the tree or the index map up again on every call, so objects added after retrieve show up through an earlier result set. A View records the buckets as they were when retrieve ran.
- Iteration order of result sets and of `Collection` arguments is not modelled. Result views are multisets, and collections are sequences in their iteration order.
- Java int overflow of `size()` and `getMergeCost()` is not modelled: sizes are unbounded naturals.
- The benchmark harness SuffixTreeIndex_ModelContainsG is not engine logic.
