/**
 * The key -> bucket map every index keeps, and the maintenance the indexes do
 * on it, as functions: add an object to the bucket of each of its keys
 * (creating a missing bucket), remove it again (skipping a missing bucket and
 * dropping a bucket that becomes empty).
 *
 * The functions follow the loops of the Java code one step at a time; the
 * lemmas give their closed forms and what follows from those: added objects
 * are present, untouched keys keep their buckets, stored buckets are never
 * empty, and adding then removing objects that were absent restores the map.
 */
module BucketMaps {

  /** The bucket stored under `k`, or the empty set when there is none. */
  function Bucket<K, O>(t: map<K, set<O>>, k: K): set<O> {
    if k in t then t[k] else {}
  }

  // ---------- One step at a time, as the loops do it ----------

  /** Get-or-create the bucket of `k`, then add `o` to it. */
  function AddToBucket<K, O>(t: map<K, set<O>>, k: K, o: O): map<K, set<O>> {
    t[k := Bucket(t, k) + {o}]
  }

  /** The inner loop of the add: `o` goes into the bucket of each key in turn. */
  function AddToBuckets<K, O>(t: map<K, set<O>>, o: O, ks: seq<K>): map<K, set<O>>
    decreases |ks|
  {
    if ks == [] then t
    else AddToBucket(AddToBuckets(t, o, ks[..|ks| - 1]), ks[|ks| - 1], o)
  }

  /**
   * Both loops of the add: each object in turn, under each of its keys. An
   * existing bucket is reused, never replaced, so it keeps what it held.
   */
  function AddObjects<K, O>(t: map<K, set<O>>, objs: seq<O>, keysOf: O -> seq<K>): (r: map<K, set<O>>)
    ensures forall k :: k in t ==> k in r && t[k] <= r[k]
    decreases |objs|
  {
    if objs == [] then t
    else
      var o := objs[|objs| - 1];
      var before := AddObjects(t, objs[..|objs| - 1], keysOf);
      AddToBucketsKeepsBuckets(before, o, keysOf(o));
      AddToBuckets(before, o, keysOf(o))
  }

  /** Skip a missing bucket; otherwise remove `o`, and drop the key if its bucket is now empty. */
  function RemoveFromBucket<K, O>(t: map<K, set<O>>, k: K, o: O): map<K, set<O>> {
    if k !in t then t
    else if t[k] - {o} == {} then t - {k}
    else t[k := t[k] - {o}]
  }

  /** The inner loop of the remove. */
  function RemoveFromBuckets<K, O>(t: map<K, set<O>>, o: O, ks: seq<K>): map<K, set<O>>
    decreases |ks|
  {
    if ks == [] then t
    else RemoveFromBucket(RemoveFromBuckets(t, o, ks[..|ks| - 1]), ks[|ks| - 1], o)
  }

  /** Both loops of the remove: no key appears and no bucket grows. */
  function RemoveObjects<K, O>(t: map<K, set<O>>, objs: seq<O>, keysOf: O -> seq<K>): (r: map<K, set<O>>)
    ensures r.Keys <= t.Keys
    ensures forall k :: k in r ==> r[k] <= t[k]
    decreases |objs|
  {
    if objs == [] then t
    else
      var o := objs[|objs| - 1];
      var before := RemoveObjects(t, objs[..|objs| - 1], keysOf);
      RemoveFromBucketsShrinks(before, o, keysOf(o));
      RemoveFromBuckets(before, o, keysOf(o))
  }

  lemma {:induction false} AddToBucketsKeepsBuckets<K, O>(t: map<K, set<O>>, o: O, ks: seq<K>)
    ensures var r := AddToBuckets(t, o, ks); forall k :: k in t ==> k in r && t[k] <= r[k]
    decreases |ks|
  {
    if ks != [] {
      AddToBucketsKeepsBuckets(t, o, ks[..|ks| - 1]);
    }
  }

  lemma {:induction false} RemoveFromBucketsShrinks<K, O>(t: map<K, set<O>>, o: O, ks: seq<K>)
    ensures var r := RemoveFromBuckets(t, o, ks); r.Keys <= t.Keys && forall k :: k in r ==> r[k] <= t[k]
    decreases |ks|
  {
    if ks != [] {
      RemoveFromBucketsShrinks(t, o, ks[..|ks| - 1]);
    }
  }

  // ---------- Invariants ----------

  /** No key is stored with an empty bucket. */
  ghost predicate NonEmptyBuckets<K, O>(t: map<K, set<O>>) {
    forall k :: k in t ==> t[k] != {}
  }

  /** Every object is stored only under keys it has. */
  ghost predicate StoredUnderOwnKeys<K, O>(t: map<K, set<O>>, keysOf: O -> seq<K>) {
    forall k :: k in t ==> forall o :: o in t[k] ==> k in keysOf(o)
  }

  // ---------- Closed forms ----------

  /** The objects of `objs` that have key `k`. */
  ghost function Having<K, O>(objs: seq<O>, keysOf: O -> seq<K>, k: K): set<O> {
    set o | o in objs && k in keysOf(o)
  }

  /** Every key some object of `objs` has. */
  ghost function KeysOfAll<K, O>(objs: seq<O>, keysOf: O -> seq<K>): set<K>
    decreases |objs|
  {
    if objs == [] then {}
    else
      var ks := keysOf(objs[|objs| - 1]);
      KeysOfAll(objs[..|objs| - 1], keysOf) + set k | k in ks
  }

  lemma {:induction false} KeysOfAllHaveObjects<K, O>(objs: seq<O>, keysOf: O -> seq<K>, k: K)
    ensures k in KeysOfAll(objs, keysOf) <==> exists i :: 0 <= i < |objs| && k in keysOf(objs[i])
    ensures k in KeysOfAll(objs, keysOf) <==> Having(objs, keysOf, k) != {}
    decreases |objs|
  {
    if objs != [] {
      var init := objs[..|objs| - 1];
      KeysOfAllHaveObjects(init, keysOf, k);
      if k in KeysOfAll(init, keysOf) {
        var i :| 0 <= i < |init| && k in keysOf(init[i]);
        assert objs[i] == init[i];
      }
      assert objs == init + [objs[|objs| - 1]];
    }
    if exists i :: 0 <= i < |objs| && k in keysOf(objs[i]) {
      var i :| 0 <= i < |objs| && k in keysOf(objs[i]);
      assert objs[i] in Having(objs, keysOf, k);
    }
    if Having(objs, keysOf, k) != {} {
      var o :| o in Having(objs, keysOf, k);
      var i :| 0 <= i < |objs| && objs[i] == o;
    }
  }

  /** What adding `objs` leaves: each key's old bucket plus the objects having that key. */
  ghost function Added<K, O>(t: map<K, set<O>>, objs: seq<O>, keysOf: O -> seq<K>): map<K, set<O>> {
    map k | k in t.Keys + KeysOfAll(objs, keysOf) :: Bucket(t, k) + Having(objs, keysOf, k)
  }

  /**
   * What removing `objs` leaves: each bucket minus the objects having its key;
   * a key some removed object has is dropped when nothing is left of its bucket.
   */
  ghost function Removed<K, O>(t: map<K, set<O>>, objs: seq<O>, keysOf: O -> seq<K>): map<K, set<O>> {
    map k | k in t && (Having(objs, keysOf, k) == {} || t[k] - Having(objs, keysOf, k) != {})
      :: t[k] - Having(objs, keysOf, k)
  }

  /** What the inner add loop leaves: `o` added to the bucket of each key in `ks`. */
  ghost function AddedOne<K, O>(t: map<K, set<O>>, o: O, ks: seq<K>): map<K, set<O>> {
    map k | k in t.Keys + (set x | x in ks) :: Bucket(t, k) + (if k in ks then {o} else {})
  }

  /** What the inner remove loop leaves. */
  ghost function RemovedOne<K, O>(t: map<K, set<O>>, o: O, ks: seq<K>): map<K, set<O>> {
    map k | k in t && (k !in ks || t[k] - {o} != {}) :: if k in ks then t[k] - {o} else t[k]
  }

  lemma {:induction false} AddToBucketsClosedForm<K, O>(t: map<K, set<O>>, o: O, ks: seq<K>)
    ensures AddToBuckets(t, o, ks) == AddedOne(t, o, ks)
    decreases |ks|
  {
    var cf := AddedOne(t, o, ks);
    if ks == [] {
      assert cf.Keys == t.Keys;
      forall k | k in t ensures cf[k] == t[k] { }
    } else {
      var init, last := ks[..|ks| - 1], ks[|ks| - 1];
      assert ks == init + [last];
      AddToBucketsClosedForm(t, o, init);
      var r := AddToBuckets(t, o, ks);
      assert r.Keys == cf.Keys;
      forall k | k in r ensures r[k] == cf[k] { }
    }
  }

  lemma {:induction false} RemoveFromBucketsClosedForm<K, O>(t: map<K, set<O>>, o: O, ks: seq<K>)
    ensures RemoveFromBuckets(t, o, ks) == RemovedOne(t, o, ks)
    decreases |ks|
  {
    var cf := RemovedOne(t, o, ks);
    if ks == [] {
      assert cf.Keys == t.Keys;
      forall k | k in t ensures cf[k] == t[k] { }
    } else {
      var init, last := ks[..|ks| - 1], ks[|ks| - 1];
      assert ks == init + [last];
      RemoveFromBucketsClosedForm(t, o, init);
      var r := RemoveFromBuckets(t, o, ks);
      assert r.Keys == cf.Keys;
      forall k | k in r ensures r[k] == cf[k] { }
    }
  }

  lemma HavingStep<K, O>(init: seq<O>, last: O, keysOf: O -> seq<K>, k: K)
    ensures Having(init + [last], keysOf, k) == Having(init, keysOf, k) + (if k in keysOf(last) then {last} else {})
  {
    var objs := init + [last];
    forall o ensures o in objs <==> o in init || o == last { }
  }

  /** One more object on top of the closed form is the closed form of the longer sequence. */
  lemma AddedStep<K, O>(t: map<K, set<O>>, init: seq<O>, last: O, keysOf: O -> seq<K>)
    ensures AddedOne(Added(t, init, keysOf), last, keysOf(last)) == Added(t, init + [last], keysOf)
  {
    var objs := init + [last];
    var before := Added(t, init, keysOf);
    var a := AddedOne(before, last, keysOf(last));
    var b := Added(t, objs, keysOf);
    assert objs[..|objs| - 1] == init;
    assert KeysOfAll(objs, keysOf) == KeysOfAll(init, keysOf) + set x | x in keysOf(last);
    assert a.Keys == b.Keys;
    forall k | k in a ensures a[k] == b[k] {
      KeysOfAllHaveObjects(init, keysOf, k);
      HavingStep(init, last, keysOf, k);
      assert Bucket(before, k) == Bucket(t, k) + Having(init, keysOf, k);
    }
  }

  /** Adding in sequence gives the closed form, whatever the order of the objects and keys. */
  lemma {:induction false} AddObjectsClosedForm<K, O>(t: map<K, set<O>>, objs: seq<O>, keysOf: O -> seq<K>)
    ensures AddObjects(t, objs, keysOf) == Added(t, objs, keysOf)
    decreases |objs|
  {
    var cf := Added(t, objs, keysOf);
    if objs == [] {
      assert cf.Keys == t.Keys;
      forall k | k in t ensures cf[k] == t[k] {
        assert Having(objs, keysOf, k) == {};
      }
    } else {
      var init, last := objs[..|objs| - 1], objs[|objs| - 1];
      assert objs == init + [last];
      AddObjectsClosedForm(t, init, keysOf);
      AddToBucketsClosedForm(Added(t, init, keysOf), last, keysOf(last));
      AddedStep(t, init, last, keysOf);
    }
  }

  /** Removing in sequence gives the closed form, whatever the order of the objects and keys. */
  lemma {:induction false} RemoveObjectsClosedForm<K, O>(t: map<K, set<O>>, objs: seq<O>, keysOf: O -> seq<K>)
    ensures RemoveObjects(t, objs, keysOf) == Removed(t, objs, keysOf)
    decreases |objs|
  {
    var cf := Removed(t, objs, keysOf);
    if objs == [] {
      forall k | k in t ensures t[k] - Having(objs, keysOf, k) == t[k] {
        assert forall o :: o in Having(objs, keysOf, k) ==> o in objs;
      }
      assert cf.Keys == t.Keys;
    } else {
      var init, last := objs[..|objs| - 1], objs[|objs| - 1];
      assert objs == init + [last];
      RemoveObjectsClosedForm(t, init, keysOf);
      RemoveFromBucketsClosedForm(Removed(t, init, keysOf), last, keysOf(last));
      var r := RemoveObjects(t, objs, keysOf);
      forall k
        ensures Having(objs, keysOf, k) == Having(init, keysOf, k) + (if k in keysOf(last) then {last} else {})
      {
      }
      assert r.Keys == cf.Keys;
      forall k | k in r ensures r[k] == cf[k] { }
    }
  }

  // ---------- What the add promises ----------

  /**
   * After the add, every object is in the bucket of each of its keys; an
   * existing bucket keeps what it had; a key no added object has is left
   * exactly as it was; and no new key appears that no added object has.
   */
  lemma AddObjectsEffect<K, O>(t: map<K, set<O>>, objs: seq<O>, keysOf: O -> seq<K>)
    ensures forall i, k :: 0 <= i < |objs| && k in keysOf(objs[i]) ==>
      k in AddObjects(t, objs, keysOf) && objs[i] in AddObjects(t, objs, keysOf)[k]
    ensures forall k :: k in t ==> k in AddObjects(t, objs, keysOf) && t[k] <= AddObjects(t, objs, keysOf)[k]
    ensures forall k :: k in AddObjects(t, objs, keysOf) && k !in t ==>
      exists i :: 0 <= i < |objs| && k in keysOf(objs[i])
    ensures forall k :: k in AddObjects(t, objs, keysOf) && Having(objs, keysOf, k) == {} ==>
      k in t && AddObjects(t, objs, keysOf)[k] == t[k]
  {
    AddObjectsClosedForm(t, objs, keysOf);
    var r := AddObjects(t, objs, keysOf);
    forall k | k in r && k !in t
      ensures exists i :: 0 <= i < |objs| && k in keysOf(objs[i])
      ensures Having(objs, keysOf, k) != {}
    {
      KeysOfAllHaveObjects(objs, keysOf, k);
    }
    forall i, k | 0 <= i < |objs| && k in keysOf(objs[i])
      ensures k in r && objs[i] in r[k]
    {
      KeysOfAllHaveObjects(objs, keysOf, k);
      assert objs[i] in Having(objs, keysOf, k);
    }
  }

  /** The add keeps both invariants. */
  lemma AddObjectsKeepsInvariants<K, O>(t: map<K, set<O>>, objs: seq<O>, keysOf: O -> seq<K>)
    ensures NonEmptyBuckets(t) ==> NonEmptyBuckets(AddObjects(t, objs, keysOf))
    ensures StoredUnderOwnKeys(t, keysOf) ==> StoredUnderOwnKeys(AddObjects(t, objs, keysOf), keysOf)
  {
    AddObjectsClosedForm(t, objs, keysOf);
    var r := AddObjects(t, objs, keysOf);
    if NonEmptyBuckets(t) {
      forall k | k in r ensures r[k] != {} {
        if k !in t {
          KeysOfAllHaveObjects(objs, keysOf, k);
          var i :| 0 <= i < |objs| && k in keysOf(objs[i]);
          assert objs[i] in r[k];
        }
      }
    }
  }

  // ---------- What the remove promises ----------

  /**
   * After the remove, no removed object is left in the bucket of any of its
   * keys; a key no removed object has is left exactly as it was; and no key
   * is added.
   */
  lemma RemoveObjectsEffect<K, O>(t: map<K, set<O>>, objs: seq<O>, keysOf: O -> seq<K>)
    ensures var r := RemoveObjects(t, objs, keysOf);
      && r.Keys <= t.Keys
      && (forall i, k :: 0 <= i < |objs| && k in keysOf(objs[i]) && k in r ==> objs[i] !in r[k])
      && (forall k :: k in r ==> r[k] <= t[k])
      && (forall k :: k in t && t[k] != {} && Having(objs, keysOf, k) == {} ==> k in r && r[k] == t[k])
  {
    RemoveObjectsClosedForm(t, objs, keysOf);
  }

  /** The remove keeps both invariants; in particular every bucket it leaves is non-empty. */
  lemma RemoveObjectsKeepsInvariants<K, O>(t: map<K, set<O>>, objs: seq<O>, keysOf: O -> seq<K>)
    ensures NonEmptyBuckets(t) ==> NonEmptyBuckets(RemoveObjects(t, objs, keysOf))
    ensures StoredUnderOwnKeys(t, keysOf) ==> StoredUnderOwnKeys(RemoveObjects(t, objs, keysOf), keysOf)
  {
    RemoveObjectsClosedForm(t, objs, keysOf);
  }

  /** With objects stored only under their own keys, a removed object is left in no bucket at all. */
  lemma RemovedObjectsAreGone<K, O>(t: map<K, set<O>>, objs: seq<O>, keysOf: O -> seq<K>)
    requires StoredUnderOwnKeys(t, keysOf)
    ensures var r := RemoveObjects(t, objs, keysOf);
      forall k, i :: k in r && 0 <= i < |objs| ==> objs[i] !in r[k]
  {
    RemoveObjectsClosedForm(t, objs, keysOf);
    var r := RemoveObjects(t, objs, keysOf);
    forall k, i | k in r && 0 <= i < |objs|
      ensures objs[i] !in r[k]
    {
    }
  }

  // ---------- Round trip ----------

  /**
   * Adding objects that no bucket holds and then removing them restores the
   * map exactly: no empty bucket is left behind for a key the add created.
   */
  lemma AddThenRemoveRestores<K, O>(t: map<K, set<O>>, objs: seq<O>, keysOf: O -> seq<K>)
    requires NonEmptyBuckets(t)
    requires forall k, i :: k in t && 0 <= i < |objs| ==> objs[i] !in t[k]
    ensures RemoveObjects(AddObjects(t, objs, keysOf), objs, keysOf) == t
  {
    var a := AddObjects(t, objs, keysOf);
    AddObjectsClosedForm(t, objs, keysOf);
    RemoveObjectsClosedForm(a, objs, keysOf);
    var r := RemoveObjects(a, objs, keysOf);
    forall k | k in a
      ensures a[k] - Having(objs, keysOf, k) == Bucket(t, k)
      ensures k !in t ==> Having(objs, keysOf, k) != {}
    {
      KeysOfAllHaveObjects(objs, keysOf, k);
    }
    assert r.Keys == t.Keys;
    forall k | k in r ensures r[k] == t[k] { }
  }
}
