/**
 * The query model: the leaf query kinds the indexes dispatch on, and the two
 * logical nodes And and Not with their construction rules, matching,
 * structural equality and cached hash codes.
 *
 * What a leaf query (Equal, StringEndsWith, CompoundQuery, or any other query
 * class) answers for an object, its hashCode and its toString belong to the
 * leaf classes, which are not part of this model: they are passed in as the
 * functions `leaf`, `lh` and `show`.
 */
module Queries {
  import opened Wrappers

  type AttributeName = string

  /** Java's `int`. */
  type Int32 = x: int | -0x8000_0000 <= x < 0x8000_0000

  /** Java's wrap-around of an `int` expression. */
  function Wrap32(x: int): (r: Int32)
    ensures (r - x) % 0x1_0000_0000 == 0
    ensures -0x8000_0000 <= x < 0x8000_0000 ==> r == x
  {
    (x + 0x8000_0000) % 0x1_0000_0000 - 0x8000_0000
  }

  /**
   * One query node. The leaf constructors carry what the indexes read from
   * them; OtherQuery stands for every query class the indexes here do not
   * answer (StringStartsWith, Or, ...). And and Not keep the hash code their
   * Java constructor computes once, in `hashCode`.
   */
  datatype Query<V> =
    | Equal(attribute: AttributeName, value: V)
    | StringEndsWith(attribute: AttributeName, suffix: string)
    | CompoundQuery(compoundAttribute: seq<AttributeName>, tuple: seq<V>)
    | OtherQuery(className: string, isLogical: bool, operands: seq<V>)
    | And(childQueries: seq<Query<V>>, hashCode: Int32)
    | Not(negatedQuery: Query<V>, hashCode: Int32)

  /** The failure of a constructor (Java's IllegalStateException). */
  datatype QueryError = FewerThanTwoChildQueries(supplied: nat)

  /** The failure of an index's retrieve (Java's IllegalArgumentException "Unsupported query"). */
  datatype IndexError<V> = UnsupportedQuery(query: Query<V>)

  /** Whether LogicalQuery files a child among the logical queries. */
  predicate IsLogical<V>(q: Query<V>) {
    q.And? || q.Not? || (q.OtherQuery? && q.isLogical)
  }

  // ---------- LogicalQuery: the split of the children ----------

  /** The children that are simple queries, in their original order. */
  function SimpleQueries<V>(cs: seq<Query<V>>): (r: seq<Query<V>>)
    ensures forall i :: 0 <= i < |r| ==> r[i] in cs && !IsLogical(r[i])
    ensures forall i :: 0 <= i < |cs| && !IsLogical(cs[i]) ==> cs[i] in r
  {
    if cs == [] then [] else (if IsLogical(cs[0]) then [] else [cs[0]]) + SimpleQueries(cs[1..])
  }

  /** The children that are logical queries, in their original order. */
  function LogicalQueries<V>(cs: seq<Query<V>>): (r: seq<Query<V>>)
    ensures forall i :: 0 <= i < |r| ==> r[i] in cs && IsLogical(r[i])
    ensures forall i :: 0 <= i < |cs| && IsLogical(cs[i]) ==> cs[i] in r
  {
    if cs == [] then [] else (if IsLogical(cs[0]) then [cs[0]] else []) + LogicalQueries(cs[1..])
  }

  /** The order in which And.matches looks at its children: simple ones first, then logical ones. */
  function EvaluationOrder<V>(cs: seq<Query<V>>): (r: seq<Query<V>>)
    ensures forall i :: 0 <= i < |r| ==> r[i] in cs
    ensures forall i :: 0 <= i < |cs| ==> cs[i] in r
  {
    SimpleQueries(cs) + LogicalQueries(cs)
  }

  /** The two sub-lists together hold every child exactly as often as the child list does. */
  lemma {:induction false} SplitIsPartition<V>(cs: seq<Query<V>>)
    ensures multiset(SimpleQueries(cs)) + multiset(LogicalQueries(cs)) == multiset(cs)
    ensures |EvaluationOrder(cs)| == |cs|
  {
    if cs != [] {
      SplitIsPartition(cs[1..]);
      assert cs == [cs[0]] + cs[1..];
    }
  }

  // ---------- Matching ----------

  /**
   * Query.matches. And runs through its children in evaluation order and
   * answers false at the first child that does not match; Not negates its
   * child; a leaf answers through `leaf`. And is therefore conjunction,
   * whatever the split into simple and logical children.
   */
  function Matches<V, O>(q: Query<V>, o: O, leaf: (Query<V>, O) -> bool): (r: bool)
    ensures q.And? ==> (r <==> forall i :: 0 <= i < |q.childQueries| ==> Matches(q.childQueries[i], o, leaf))
    ensures q.Not? ==> r == !Matches(q.negatedQuery, o, leaf)
    ensures !q.And? && !q.Not? ==> r == leaf(q, o)
    decreases q, 1
  {
    match q
    case And(cs, _) =>
      var order := EvaluationOrder(cs);
      var r := AllMatchInOrder(q, order, o, leaf);
      assert (forall i :: 0 <= i < |order| ==> Matches(order[i], o, leaf)) ==>
        forall i :: 0 <= i < |cs| ==> Matches(cs[i], o, leaf)
      by {
        if forall i :: 0 <= i < |order| ==> Matches(order[i], o, leaf) {
          forall i | 0 <= i < |cs| ensures Matches(cs[i], o, leaf) {
            var j :| 0 <= j < |order| && order[j] == cs[i];
          }
        }
      }
      r
    case Not(n, _) => !Matches(n, o, leaf)
    case _ => leaf(q, o)
  }

  /**
   * The loops of And.matches over `qs`, a rearrangement of the children of
   * `parent`: true exactly when every query of `qs` matches.
   */
  function AllMatchInOrder<V, O>(parent: Query<V>, qs: seq<Query<V>>, o: O, leaf: (Query<V>, O) -> bool): (r: bool)
    requires parent.And? && forall i :: 0 <= i < |qs| ==> qs[i] in parent.childQueries
    ensures r <==> forall i :: 0 <= i < |qs| ==> Matches(qs[i], o, leaf)
    decreases parent, 0, |qs|
  {
    if qs == [] then true
    else if !Matches(qs[0], o, leaf) then false
    else
      var r := AllMatchInOrder(parent, qs[1..], o, leaf);
      assert forall i :: 1 <= i < |qs| ==> qs[i] == qs[1..][i - 1];
      r
  }

  /** The children that And.matches evaluates: everything up to and including the first one that fails. */
  function Evaluated<V, O>(qs: seq<Query<V>>, o: O, leaf: (Query<V>, O) -> bool): (r: seq<Query<V>>)
  {
    if qs == [] then []
    else if !Matches(qs[0], o, leaf) then [qs[0]]
    else [qs[0]] + Evaluated(qs[1..], o, leaf)
  }

  lemma {:induction false} EvaluatedIsShortCircuit<V, O>(parent: Query<V>, qs: seq<Query<V>>, o: O, leaf: (Query<V>, O) -> bool)
    requires parent.And? && forall i :: 0 <= i < |qs| ==> qs[i] in parent.childQueries
    ensures var e := Evaluated(qs, o, leaf);
      && |e| <= |qs| && e == qs[..|e|]
      && (forall i :: 0 <= i < |e| - 1 ==> Matches(e[i], o, leaf))
      && (AllMatchInOrder(parent, qs, o, leaf) <==> |e| == |qs| && (e == [] || Matches(e[|e| - 1], o, leaf)))
    decreases |qs|
  {
    if qs != [] && Matches(qs[0], o, leaf) {
      EvaluatedIsShortCircuit(parent, qs[1..], o, leaf);
      var e' := Evaluated(qs[1..], o, leaf);
      assert Evaluated(qs, o, leaf) == [qs[0]] + e';
    }
  }

  /**
   * And.matches stops at the first failing child of the simple-then-logical
   * order: every child it looked at before that one matched, and it answers
   * true exactly when it looked at all children and the last one matched.
   */
  lemma AndStopsAtFirstFailure<V, O>(q: Query<V>, o: O, leaf: (Query<V>, O) -> bool)
    requires q.And?
    ensures var order := EvaluationOrder(q.childQueries);
      var e := Evaluated(order, o, leaf);
      && order == SimpleQueries(q.childQueries) + LogicalQueries(q.childQueries)
      && |e| <= |order| && e == order[..|e|]
      && (forall i :: 0 <= i < |e| - 1 ==> Matches(e[i], o, leaf))
      && (Matches(q, o, leaf) <==> |e| == |order| && (e == [] || Matches(e[|e| - 1], o, leaf)))
  {
    EvaluatedIsShortCircuit(q, EvaluationOrder(q.childQueries), o, leaf);
  }

  // ---------- Hash codes ----------

  /**
   * hashCode(): the value cached at construction for And and Not (never
   * recomputed), the leaf class's own otherwise. CachedHashIsComputed shows the
   * cached value is what calcHashCode computes from the children.
   */
  function HashCode<V>(q: Query<V>, lh: Query<V> -> Int32): (r: Int32)
    ensures q.And? || q.Not? ==> r == q.hashCode
    ensures !q.And? && !q.Not? ==> r == lh(q)
  {
    if q.And? || q.Not? then q.hashCode else lh(q)
  }

  /** java.util.List.hashCode over the children: 31 * h + e.hashCode() from 1, wrapping at 32 bits. */
  function ListHashCode<V>(cs: seq<Query<V>>, lh: Query<V> -> Int32): Int32 {
    if cs == [] then 1
    else Wrap32(31 * ListHashCode(cs[..|cs| - 1], lh) + HashCode(cs[|cs| - 1], lh))
  }

  /**
   * A node built by the constructors: every And has at least two children and
   * every cached hash code is the one its constructor computed.
   */
  ghost predicate WellFormed<V>(q: Query<V>, lh: Query<V> -> Int32)
    decreases q
  {
    match q
    case And(cs, h) =>
      |cs| >= 2 && h == ListHashCode(cs, lh) && forall i :: 0 <= i < |cs| ==> WellFormed(cs[i], lh)
    case Not(n, h) => h == HashCode(n, lh) && WellFormed(n, lh)
    case _ => true
  }

  /** On a node its constructor built, hashCode() is calcHashCode of the children. */
  lemma CachedHashIsComputed<V>(q: Query<V>, lh: Query<V> -> Int32)
    requires WellFormed(q, lh)
    ensures q.And? ==> HashCode(q, lh) == ListHashCode(q.childQueries, lh)
    ensures q.Not? ==> HashCode(q, lh) == HashCode(q.negatedQuery, lh)
  {
  }

  // ---------- Constructors ----------

  /** new And(childQueries): fails with fewer than two children, caches the list hash otherwise. */
  function NewAnd<V>(cs: seq<Query<V>>, lh: Query<V> -> Int32): (r: Result<Query<V>, QueryError>)
    ensures r.Failure? <==> |cs| < 2
    ensures r.Failure? ==> r.error == FewerThanTwoChildQueries(|cs|)
    ensures r.Success? ==> r.value.And? && r.value.childQueries == cs
    ensures r.Success? ==> HashCode(r.value, lh) == ListHashCode(cs, lh)
    ensures r.Success? && (forall i :: 0 <= i < |cs| ==> WellFormed(cs[i], lh)) ==> WellFormed(r.value, lh)
  {
    if |cs| < 2 then Failure(FewerThanTwoChildQueries(|cs|))
    else Success(And(cs, ListHashCode(cs, lh)))
  }

  /** new Not(negatedQuery): the one child is the argument, and the cached hash is the child's. */
  function NewNot<V>(n: Query<V>, lh: Query<V> -> Int32): (r: Query<V>)
    ensures r.Not? && r.negatedQuery == n
    ensures HashCode(r, lh) == HashCode(n, lh)
    ensures WellFormed(n, lh) ==> WellFormed(r, lh)
  {
    Not(n, HashCode(n, lh))
  }

  /** A two-child And is the conjunction of its children. */
  lemma AndOfTwo<V, O>(p1: Query<V>, p2: Query<V>, lh: Query<V> -> Int32, o: O, leaf: (Query<V>, O) -> bool)
    ensures NewAnd([p1, p2], lh).Success?
    ensures Matches(NewAnd([p1, p2], lh).value, o, leaf) == (Matches(p1, o, leaf) && Matches(p2, o, leaf))
  {
    var q := NewAnd([p1, p2], lh).value;
    assert q.childQueries[0] == p1 && q.childQueries[1] == p2;
  }

  /** Not.matches is the complement of its child, so two negations cancel. */
  lemma DoubleNegation<V, O>(p: Query<V>, lh: Query<V> -> Int32, o: O, leaf: (Query<V>, O) -> bool)
    ensures Matches(NewNot(p, lh), o, leaf) == !Matches(p, o, leaf)
    ensures Matches(NewNot(NewNot(p, lh), lh), o, leaf) == Matches(p, o, leaf)
  {
  }

  // ---------- Equality ----------

  /**
   * equals(): an And equals another And whose child list is equal element by
   * element; a Not equals another Not whose negated query is equal. The leaf
   * classes' own equals is taken to be structural.
   */
  predicate Equals<V(==)>(a: Query<V>, b: Query<V>): (r: bool)
    ensures a == b ==> r
    decreases a
  {
    match a
    case And(cs, _) =>
      b.And? && |cs| == |b.childQueries| && forall i :: 0 <= i < |cs| ==> Equals(cs[i], b.childQueries[i])
    case Not(n, _) => b.Not? && Equals(n, b.negatedQuery)
    case _ => a == b
  }

  /**
   * On nodes built by the constructors, equals() is exactly structural
   * equality: the cached hash codes never make two equal child lists differ.
   */
  lemma {:induction false} EqualsIsStructural<V>(a: Query<V>, b: Query<V>, lh: Query<V> -> Int32)
    requires WellFormed(a, lh) && WellFormed(b, lh)
    ensures Equals(a, b) <==> a == b
    decreases a
  {
    match a
    case And(cs, h) =>
      if b.And? && |cs| == |b.childQueries| {
        var ds := b.childQueries;
        forall i | 0 <= i < |cs|
          ensures Equals(cs[i], ds[i]) <==> cs[i] == ds[i]
        {
          EqualsIsStructural(cs[i], ds[i], lh);
        }
        if Equals(a, b) {
          assert cs == ds;
        }
      }
    case Not(n, h) =>
      if b.Not? {
        EqualsIsStructural(n, b.negatedQuery, lh);
      }
    case _ =>
  }

  /** Equal nodes have equal (cached) hash codes. */
  lemma EqualsImpliesEqualHashCodes<V>(a: Query<V>, b: Query<V>, lh: Query<V> -> Int32)
    requires WellFormed(a, lh) && WellFormed(b, lh)
    requires Equals(a, b)
    ensures HashCode(a, lh) == HashCode(b, lh)
  {
    EqualsIsStructural(a, b, lh);
  }

  // ---------- Rendering ----------

  /** Not.toString: "not(" followed by the negated query's own rendering and ")". */
  function NotToString<V>(q: Query<V>, show: Query<V> -> string): (r: string)
    requires q.Not?
    ensures |r| == |show(q.negatedQuery)| + 5
    ensures r[..4] == "not(" && r[|r| - 1] == ')' && r[4..|r| - 1] == show(q.negatedQuery)
  {
    "not(" + show(q.negatedQuery) + ")"
  }
}
