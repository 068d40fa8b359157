/**
 * The native JavaScript Map that MultiKeyMap extends: its entries in
 * insertion order, with the operations index.js reaches through `super`.
 */
module NativeMap {
  import opened Wrappers

  /** No key occurs in two entries. */
  ghost predicate DistinctKeys<K, V>(e: seq<(K, V)>)
  {
    forall i, j :: 0 <= i < j < |e| ==> e[i].0 != e[j].0
  }

  /** The position of the entry with key k. */
  function IndexOf<K(==), V>(e: seq<(K, V)>, k: K): (r: Option<nat>)
    ensures r.Some? ==> r.value < |e| && e[r.value].0 == k
    ensures r.None? ==> forall i :: 0 <= i < |e| ==> e[i].0 != k
  {
    if e == [] then None
    else if e[0].0 == k then Some(0)
    else match IndexOf(e[1..], k)
      case None => None
      case Some(j) => Some(j + 1)
  }

  /** Map.prototype.has */
  predicate HasKey<K(==), V>(e: seq<(K, V)>, k: K)
    ensures HasKey(e, k) <==> exists i :: 0 <= i < |e| && e[i].0 == k
  {
    IndexOf(e, k).Some?
  }

  /** Map.prototype.get; None where JavaScript returns undefined for a missing key. */
  function Get<K(==), V>(e: seq<(K, V)>, k: K): (r: Option<V>)
    ensures r.Some? <==> HasKey(e, k)
    ensures r.Some? ==> (k, r.value) in e
  {
    match IndexOf(e, k)
    case Some(i) => Some(e[i].1)
    case None => None
  }

  /** Map.prototype.set: replaces the value in place, or appends a new entry. */
  function Put<K(==), V>(e: seq<(K, V)>, k: K, v: V): (r: seq<(K, V)>)
    ensures |r| == if HasKey(e, k) then |e| else |e| + 1
    ensures forall i :: 0 <= i < |e| && e[i].0 != k ==> r[i] == e[i]
    ensures (k, v) in r
  {
    match IndexOf(e, k)
    case Some(i) =>
      var r := e[i := (e[i].0, v)];
      assert r[i] == (k, v);
      r
    case None => e + [(k, v)]
  }

  /** Map.prototype.delete, without its boolean result (that is HasKey beforehand). */
  function Remove<K(==), V>(e: seq<(K, V)>, k: K): (r: seq<(K, V)>)
    ensures |r| == if HasKey(e, k) then |e| - 1 else |e|
    ensures forall x :: x in r ==> x in e
  {
    match IndexOf(e, k)
    case Some(i) => e[..i] + e[i + 1..]
    case None => e
  }

  /** With distinct keys, the entry at position i is the one found for its key. */
  lemma IndexOfUnique<K, V>(e: seq<(K, V)>, i: nat)
    requires DistinctKeys(e) && i < |e|
    ensures IndexOf(e, e[i].0) == Some(i)
  {
  }

  /** get returns v exactly when (k, v) is an entry. */
  lemma GetFinds<K, V>(e: seq<(K, V)>, k: K, v: V)
    requires DistinctKeys(e)
    ensures Get(e, k) == Some(v) <==> exists i :: 0 <= i < |e| && e[i] == (k, v)
  {
    if i :| 0 <= i < |e| && e[i] == (k, v) {
      IndexOfUnique(e, i);
    }
  }

  /**
   * set: keys stay distinct; the map grows by one only for a new key; an
   * existing key keeps its position and only its value changes; afterwards
   * k maps to v and every other key to what it mapped to before.
   */
  lemma PutSpec<K, V>(e: seq<(K, V)>, k: K, v: V)
    requires DistinctKeys(e)
    ensures DistinctKeys(Put(e, k, v))
    ensures |Put(e, k, v)| == if HasKey(e, k) then |e| else |e| + 1
    ensures HasKey(e, k) ==> forall i :: 0 <= i < |e| ==> Put(e, k, v)[i].0 == e[i].0
    ensures !HasKey(e, k) ==> Put(e, k, v) == e + [(k, v)]
    ensures forall q :: HasKey(Put(e, k, v), q) <==> q == k || HasKey(e, q)
    ensures forall q :: Get(Put(e, k, v), q) == if q == k then Some(v) else Get(e, q)
  {
    var e' := Put(e, k, v);
    forall q
      ensures HasKey(e', q) <==> q == k || HasKey(e, q)
      ensures Get(e', q) == if q == k then Some(v) else Get(e, q)
    {
      if HasKey(e', q) {
        IndexOfUnique(e', IndexOf(e', q).value);
      }
      if HasKey(e, q) {
        var j := IndexOf(e, q).value;
        assert e'[j].0 == q;
        IndexOfUnique(e', j);
      }
      if q == k {
        if HasKey(e, k) {
          IndexOfUnique(e', IndexOf(e, k).value);
        } else {
          IndexOfUnique(e', |e|);
        }
      }
    }
  }

  /**
   * delete: keys stay distinct; the map shrinks by one exactly when the key
   * was present; afterwards k is absent and every other key is unaffected.
   */
  lemma RemoveSpec<K, V>(e: seq<(K, V)>, k: K)
    requires DistinctKeys(e)
    ensures DistinctKeys(Remove(e, k))
    ensures |Remove(e, k)| == if HasKey(e, k) then |e| - 1 else |e|
    ensures forall q :: HasKey(Remove(e, k), q) <==> q != k && HasKey(e, q)
    ensures forall q :: Get(Remove(e, k), q) == if q == k then None else Get(e, q)
  {
    var e' := Remove(e, k);
    if HasKey(e, k) {
      var i := IndexOf(e, k).value;
      assert forall j :: 0 <= j < |e'| ==> e'[j] == if j < i then e[j] else e[j + 1];
      forall q
        ensures HasKey(e', q) <==> q != k && HasKey(e, q)
        ensures Get(e', q) == if q == k then None else Get(e, q)
      {
        if HasKey(e', q) {
          var j := IndexOf(e', q).value;
          IndexOfUnique(e, if j < i then j else j + 1);
        }
        if q != k && HasKey(e, q) {
          var j := IndexOf(e, q).value;
          IndexOfUnique(e', if j < i then j else j - 1);
        }
      }
    }
  }

  /** The set of keys of the entries. */
  ghost function KeySet<K, V>(e: seq<(K, V)>): set<K>
  {
    set i | 0 <= i < |e| :: e[i].0
  }

  /** With distinct keys there are as many keys as entries (the map's size). */
  lemma {:induction false} KeySetSize<K, V>(e: seq<(K, V)>)
    requires DistinctKeys(e)
    ensures |KeySet(e)| == |e|
    decreases |e|
  {
    if e != [] {
      var pre := e[..|e| - 1];
      KeySetSize(pre);
      assert KeySet(e) == KeySet(pre) + {e[|e| - 1].0} by {
        forall q | q in KeySet(e) ensures q in KeySet(pre) + {e[|e| - 1].0} {
          var i :| 0 <= i < |e| && e[i].0 == q;
          if i < |pre| { assert pre[i] == e[i]; }
        }
        forall q | q in KeySet(pre) ensures q in KeySet(e) {
          var i :| 0 <= i < |pre| && pre[i].0 == q;
          assert e[i] == pre[i];
        }
      }
      assert e[|e| - 1].0 !in KeySet(pre);
    }
  }
}
