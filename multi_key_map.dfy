/**
 * MultiKeyMap: a native Map whose keys are arrays. Each key array is reduced
 * to a fingerprint (Tagging), the fingerprint indexes the canonical key array
 * (publicKeys), and the canonical key array is the key of the native Map
 * that holds the values (NativeMap).
 */
module MultiKeys {
  import opened Wrappers
  import opened Elements
  import opened Tagging
  import NativeMap

  /** publicKeys: fingerprint to canonical key. */
  type Index = map<seq<Slot>, seq<Elem>>

  const KeysNotArray := TypeError("The keys parameter must be an array")

  function NotIterable(typeName: string): TypeError
  {
    TypeError(typeName + " is not iterable (cannot read property Symbol(Symbol.iterator))")
  }

  /**
   * The invariant that ties the three parts together: the registry is valid,
   * each index entry is filed under its canonical key's fingerprint, the
   * native Map's keys are distinct, and every stored key is tagged and indexed.
   */
  ghost predicate Consistent<V>(R: Registry, index: Index, entries: seq<(seq<Elem>, V)>)
  {
    && Tagging.Valid(R)
    && (forall fp :: fp in index ==> ReadKey(R, index[fp]) == Some(fp))
    && NativeMap.DistinctKeys(entries)
    && (forall k :: NativeMap.HasKey(entries, k) ==> ReadKey(R, k).Some? && ReadKey(R, k).value in index)
  }

  /** No index entry outlives its stored value (true until the inherited clear runs). */
  ghost predicate NoStale<V>(index: Index, entries: seq<(seq<Elem>, V)>)
  {
    forall fp :: fp in index ==> NativeMap.HasKey(entries, index[fp])
  }

  /**
   * Resolution is sound and complete: a stored key always resolves to an
   * indexed fingerprint, and an indexed fingerprint leads back to exactly the
   * key that was looked up. So a key with an untagged identity is never found.
   */
  lemma Resolve<V>(R: Registry, index: Index, entries: seq<(seq<Elem>, V)>, k: seq<Elem>)
    requires Consistent(R, index, entries)
    ensures NativeMap.HasKey(entries, k) ==> ReadKey(R, k).Some? && ReadKey(R, k).value in index
    ensures ReadKey(R, k).Some? && ReadKey(R, k).value in index ==> index[ReadKey(R, k).value] == k
  {
    if ReadKey(R, k).Some? && ReadKey(R, k).value in index {
      ReadKeyMatches(R, k, index[ReadKey(R, k).value]);
    }
  }

  /** Tagging more identities never breaks the invariant. */
  lemma ConsistentAfterMint<V>(R: Registry, R': Registry, index: Index, entries: seq<(seq<Elem>, V)>)
    requires Consistent(R, index, entries) && Tagging.Valid(R') && Extends(R, R')
    ensures Consistent(R', index, entries)
  {
    forall fp | fp in index ensures ReadKey(R', index[fp]) == Some(fp) {
      ReadKeyExtends(R, R', index[fp]);
    }
    forall k | NativeMap.HasKey(entries, k) ensures ReadKey(R', k) == ReadKey(R, k) {
      ReadKeyExtends(R, R', k);
    }
  }

  /**
   * The index and store step of set: an already indexed fingerprint leads to
   * k itself, and filing k under its fingerprint while storing v under k keeps
   * the invariant (and keeps the index free of stale entries).
   */
  lemma IndexInsert<V>(R: Registry, index: Index, entries: seq<(seq<Elem>, V)>, k: seq<Elem>, v: V)
    requires Consistent(R, index, entries) && ReadKey(R, k).Some?
    ensures ReadKey(R, k).value in index ==> index[ReadKey(R, k).value] == k
    ensures Consistent(R, index[ReadKey(R, k).value := k], NativeMap.Put(entries, k, v))
    ensures NoStale(index, entries) ==> NoStale(index[ReadKey(R, k).value := k], NativeMap.Put(entries, k, v))
  {
    Resolve(R, index, entries, k);
    NativeMap.PutSpec(entries, k, v);
  }

  /**
   * The index and store step of a successful delete: the stored key k is
   * indexed under its fingerprint, and dropping both keeps the invariant.
   */
  lemma IndexRemove<V>(R: Registry, index: Index, entries: seq<(seq<Elem>, V)>, k: seq<Elem>)
    requires Consistent(R, index, entries) && NativeMap.HasKey(entries, k)
    ensures ReadKey(R, k).Some? && ReadKey(R, k).value in index && index[ReadKey(R, k).value] == k
    ensures Consistent(R, index - {ReadKey(R, k).value}, NativeMap.Remove(entries, k))
    ensures NoStale(index, entries) ==> NoStale(index - {ReadKey(R, k).value}, NativeMap.Remove(entries, k))
  {
    Resolve(R, index, entries, k);
    NativeMap.RemoveSpec(entries, k);
    var fp := ReadKey(R, k).value;
    forall q | NativeMap.HasKey(NativeMap.Remove(entries, k), q)
      ensures ReadKey(R, q).Some? && ReadKey(R, q).value in index - {fp}
    {
      ReadKeyMatches(R, k, q);
    }
    if NoStale(index, entries) {
      forall fp' | fp' in index - {fp}
        ensures NativeMap.HasKey(NativeMap.Remove(entries, k), index[fp'])
      {
        ReadKeyMatches(R, k, index[fp']);
      }
    }
  }

  /** A map in which distinct keys have distinct values has as many values as keys. */
  lemma {:induction false} InjectiveMapSize<K, W>(m: map<K, W>)
    requires forall a, b :: a in m && b in m && m[a] == m[b] ==> a == b
    ensures |m.Values| == |m|
    decreases |m|
  {
    if m != map[] {
      var a :| a in m;
      var m' := m - {a};
      InjectiveMapSize(m');
      assert m'.Values == m.Values - {m[a]} by {
        forall w | w in m.Values - {m[a]} ensures w in m'.Values {
          var b :| b in m && m[b] == w;
          assert b in m';
        }
      }
    }
  }

  /**
   * While no index entry is stale, publicKeys has exactly as many entries as
   * the native Map: size and the index size agree.
   */
  lemma IndexSize<V>(R: Registry, index: Index, entries: seq<(seq<Elem>, V)>)
    requires Consistent(R, index, entries) && NoStale(index, entries)
    ensures |index| == |entries|
  {
    InjectiveMapSize(index);
    NativeMap.KeySetSize(entries);
    assert index.Values == NativeMap.KeySet(entries) by {
      forall k | k in index.Values ensures k in NativeMap.KeySet(entries) {
        var fp :| fp in index && index[fp] == k;
        var i := NativeMap.IndexOf(entries, k).value;
        assert entries[i].0 == k;
      }
      forall k | k in NativeMap.KeySet(entries) ensures k in index.Values {
        var i :| 0 <= i < |entries| && entries[i].0 == k;
        NativeMap.IndexOfUnique(entries, i);
        Resolve(R, index, entries, k);
      }
    }
  }

  /**
   * While no index entry is stale, a key's fingerprint is indexed exactly when
   * the key is stored: set adds an entry (and size grows) only for a new fingerprint.
   */
  lemma NewFingerprintIffNewEntry<V>(R: Registry, index: Index, entries: seq<(seq<Elem>, V)>, k: seq<Elem>)
    requires Consistent(R, index, entries) && NoStale(index, entries) && ReadKey(R, k).Some?
    ensures ReadKey(R, k).value in index <==> NativeMap.HasKey(entries, k)
  {
    Resolve(R, index, entries, k);
  }

  /**
   * The native Map's entries after set is applied to each pair in turn,
   * starting from e; None when some pair's keys is not an array (set throws).
   */
  function SetAll<V>(e: seq<(seq<Elem>, V)>, pairs: seq<(KeysArg, V)>): (r: Option<seq<(seq<Elem>, V)>>)
    ensures r.Some? <==> forall i :: 0 <= i < |pairs| ==> pairs[i].0.Array?
    ensures r.Some? ==> |e| <= |r.value| <= |e| + |pairs|
    decreases |pairs|
  {
    if pairs == [] then Some(e)
    else
      match SetAll(e, pairs[..|pairs| - 1])
      case None => None
      case Some(e') =>
        var last := pairs[|pairs| - 1];
        if last.0.NotArray? then None else Some(NativeMap.Put(e', last.0.items, last.1))
  }

  /** Once a prefix of the pairs makes set throw, the whole construction throws. */
  lemma {:induction false} SetAllStops<V>(e: seq<(seq<Elem>, V)>, pairs: seq<(KeysArg, V)>, n: nat)
    requires n <= |pairs| && SetAll(e, pairs[..n]).None?
    ensures SetAll(e, pairs).None?
    decreases |pairs|
  {
    if n < |pairs| {
      var pre := pairs[..|pairs| - 1];
      assert pre[..n] == pairs[..n];
      SetAllStops(e, pre, n);
    } else {
      assert pairs[..n] == pairs;
    }
  }

  /** The argument of the constructor. */
  datatype Pairs<V> = NullOrUndefined | NotIterableValue(typeName: string) | Iterable(items: seq<(KeysArg, V)>)

  class MultiKeyMap<V> {
    /** The object table (a WeakMap in index.js). */
    var objectHashes: map<ObjectKey, nat>
    /** The symbol table, null's private symbol included; never shrinks. */
    var symbolHashes: map<SymbolKey, nat>
    /** The tag counter (module-level in index.js). */
    var keyCounter: nat
    /** Fingerprint to canonical key. */
    var publicKeys: Index
    /** The entries of the native Map this class extends, in insertion order. */
    var entries: seq<(seq<Elem>, V)>

    function Tags(): Registry
      reads this
    {
      Registry(objectHashes, symbolHashes, keyCounter)
    }

    ghost predicate Valid()
      reads this
    {
      Consistent(Tags(), publicKeys, entries)
    }

    ghost predicate NoStaleKeys()
      reads this
    {
      NoStale(publicKeys, entries)
    }

    /** The map's size. */
    function Size(): nat
      reads this
    {
      |entries|
    }

    /** The constructor's fixed part: empty tables, empty index, empty native Map. */
    constructor ()
      ensures Valid() && NoStaleKeys()
      ensures objectHashes == map[] && symbolHashes == map[] && keyCounter == 0
      ensures publicKeys == map[] && entries == []
    {
      objectHashes := map[];
      symbolHashes := map[];
      keyCounter := 0;
      publicKeys := map[];
      entries := [];
    }

    /**
     * new MultiKeyMap(pairs): an empty map for null or undefined, TypeError for
     * a value that is not iterable, and otherwise set applied to each pair in
     * iteration order (a pair whose keys is not an array makes it throw).
     */
    static method Create(pairs: Pairs<V>) returns (r: Result<MultiKeyMap<V>, TypeError>)
      ensures pairs.NullOrUndefined? ==> r.Ok? && r.value.entries == []
      ensures pairs.NotIterableValue? ==> r == Err(NotIterable(pairs.typeName))
      ensures pairs.Iterable? ==> (r.Ok? <==> SetAll([], pairs.items).Some?)
      ensures pairs.Iterable? && r.Err? ==> r.error == KeysNotArray
      ensures pairs.Iterable? && r.Ok? ==> r.value.entries == SetAll([], pairs.items).value
      ensures r.Ok? ==> fresh(r.value) && r.value.Valid() && r.value.NoStaleKeys()
    {
      var m := new MultiKeyMap<V>();
      if pairs.NullOrUndefined? {
        return Ok(m);
      }
      if pairs.NotIterableValue? {
        return Err(NotIterable(pairs.typeName));
      }
      var items := pairs.items;
      var i := 0;
      while i < |items|
        invariant 0 <= i <= |items|
        invariant fresh(m) && m.Valid() && m.NoStaleKeys()
        invariant SetAll([], items[..i]) == Some(m.entries)
      {
        var keys, value := items[i].0, items[i].1;
        assert items[..i + 1][..i] == items[..i] && items[..i + 1][i] == (keys, value);
        var res := m.Set(keys, value);
        if res.Err? {
          assert SetAll([], items[..i + 1]).None?;
          SetAllStops([], items, i + 1);
          return Err(res.error);
        }
        assert SetAll([], items[..i + 1]) == Some(NativeMap.Put(SetAll([], items[..i]).value, keys.items, value));
        i := i + 1;
      }
      assert items[..|items|] == items;
      r := Ok(m);
    }

    /**
     * [createPrivateKey]: visits the key's elements in order, giving every
     * identity without a tag the next tag from the counter, and returns the
     * fingerprint.
     */
    method CreatePrivateKey(keys: seq<Elem>) returns (fp: seq<Slot>)
      modifies this`objectHashes, this`symbolHashes, this`keyCounter
      ensures Tags() == Mint(old(Tags()), keys).reg
      ensures fp == Mint(old(Tags()), keys).fp
    {
      ghost var R0 := Tags();
      fp := [];
      var i := 0;
      while i < |keys|
        invariant 0 <= i <= |keys|
        invariant Mint(R0, keys[..i]) == Minted(Tags(), fp)
      {
        assert keys[..i + 1][..i] == keys[..i];
        var slot: Slot;
        match Classify(keys[i]) {
          case ByValue(p) =>
            slot := PrimSlot(p);
          case ByIdentity(InObjects(o)) =>
            if o in objectHashes {
              slot := Tag(objectHashes[o]);
            } else {
              slot := Tag(keyCounter);
              objectHashes := objectHashes[o := keyCounter];
              keyCounter := keyCounter + 1;
            }
          case ByIdentity(InSymbols(s)) =>
            if s in symbolHashes {
              slot := Tag(symbolHashes[s]);
            } else {
              slot := Tag(keyCounter);
              symbolHashes := symbolHashes[s := keyCounter];
              keyCounter := keyCounter + 1;
            }
        }
        fp := fp + [slot];
        i := i + 1;
      }
      assert keys[..|keys|] == keys;
    }

    /**
     * set: tags the key's identities, files the key under its fingerprint if
     * the fingerprint is new (otherwise reuses the canonical key already filed),
     * stores the value under the canonical key and returns the map itself.
     */
    method Set(keys: KeysArg, value: V) returns (r: Result<MultiKeyMap<V>, TypeError>)
      requires Valid()
      modifies this
      ensures Valid()
      ensures keys.NotArray? ==> r == Err(KeysNotArray) && unchanged(this)
      ensures keys.Array? ==> r == Ok(this)
      ensures keys.Array? ==> Tags() == Mint(old(Tags()), keys.items).reg
      ensures keys.Array? ==> entries == NativeMap.Put(old(entries), keys.items, value)
      ensures keys.Array? && Mint(old(Tags()), keys.items).fp in old(publicKeys) ==> publicKeys == old(publicKeys)
      ensures keys.Array? && Mint(old(Tags()), keys.items).fp !in old(publicKeys) ==>
                publicKeys == old(publicKeys)[Mint(old(Tags()), keys.items).fp := keys.items]
      ensures old(NoStaleKeys()) ==> NoStaleKeys()
    {
      if keys.NotArray? {
        return Err(KeysNotArray);
      }
      ghost var R0 := Tags();
      var privateKey := CreatePrivateKey(keys.items);
      MintSpec(R0, keys.items);
      ConsistentAfterMint(R0, Tags(), publicKeys, entries);
      IndexInsert(Tags(), publicKeys, entries, keys.items, value);
      var publicKey;
      if privateKey in publicKeys {
        publicKey := publicKeys[privateKey];
      } else {
        publicKeys := publicKeys[privateKey := keys.items];
        publicKey := keys.items;
      }
      entries := NativeMap.Put(entries, publicKey, value);
      r := Ok(this);
    }

    /** get: the value stored under a key with the same elements, position by position. */
    method Get(keys: KeysArg) returns (r: Result<Option<V>, TypeError>)
      requires Valid()
      ensures keys.NotArray? ==> r == Err(KeysNotArray)
      ensures keys.Array? ==> r == Ok(NativeMap.Get(entries, keys.items))
    {
      if keys.NotArray? {
        return Err(KeysNotArray);
      }
      var privateKey := ReadKey(Tags(), keys.items);
      Resolve(Tags(), publicKeys, entries, keys.items);
      if privateKey.Some? && privateKey.value in publicKeys {
        r := Ok(NativeMap.Get(entries, publicKeys[privateKey.value]));
      } else {
        r := Ok(None);
      }
    }

    /** has: whether a value is stored under a key with the same elements. */
    method Has(keys: KeysArg) returns (r: Result<bool, TypeError>)
      requires Valid()
      ensures keys.NotArray? ==> r == Err(KeysNotArray)
      ensures keys.Array? ==> r == Ok(NativeMap.HasKey(entries, keys.items))
    {
      if keys.NotArray? {
        return Err(KeysNotArray);
      }
      var privateKey := ReadKey(Tags(), keys.items);
      Resolve(Tags(), publicKeys, entries, keys.items);
      if privateKey.Some? && privateKey.value in publicKeys {
        r := Ok(NativeMap.HasKey(entries, publicKeys[privateKey.value]));
      } else {
        r := Ok(false);
      }
    }

    /**
     * delete: true only when the key resolves and its entry was stored; then
     * both the entry and its index entry go. The identity tables are untouched.
     */
    method Delete(keys: KeysArg) returns (r: Result<bool, TypeError>)
      requires Valid()
      modifies this`entries, this`publicKeys
      ensures Valid()
      ensures keys.NotArray? ==> r == Err(KeysNotArray) && entries == old(entries) && publicKeys == old(publicKeys)
      ensures keys.Array? ==> r == Ok(NativeMap.HasKey(old(entries), keys.items))
      ensures keys.Array? ==> entries == NativeMap.Remove(old(entries), keys.items)
      ensures keys.Array? && r.value ==>
                ReadKey(Tags(), keys.items).Some? && publicKeys == old(publicKeys) - {ReadKey(Tags(), keys.items).value}
      ensures keys.Array? && !r.value ==> publicKeys == old(publicKeys)
      ensures old(NoStaleKeys()) ==> NoStaleKeys()
    {
      if keys.NotArray? {
        return Err(KeysNotArray);
      }
      var privateKey := ReadKey(Tags(), keys.items);
      Resolve(Tags(), publicKeys, entries, keys.items);
      if privateKey.None? || privateKey.value !in publicKeys {
        return Ok(false);
      }
      var publicKey := publicKeys[privateKey.value];
      if !NativeMap.HasKey(entries, publicKey) {
        return Ok(false);
      }
      IndexRemove(Tags(), publicKeys, entries, publicKey);
      entries := NativeMap.Remove(entries, publicKey);
      publicKeys := publicKeys - {privateKey.value};
      r := Ok(true);
    }

    /**
     * clear, inherited from the native Map: empties the stored entries only;
     * publicKeys and both identity tables keep their contents.
     */
    method Clear()
      requires Valid()
      modifies this`entries
      ensures Valid() && entries == []
    {
      entries := [];
    }
  }

  function MixedTruthy(): seq<Elem> { [Prim(Num(Finite(1.0))), Prim(Str("1")), Prim(Bool(true))] }
  function MixedFalsy(): seq<Elem> { [Prim(Bool(false)), Null, Prim(Undefined)] }
  function MixedUndefined(): seq<Elem> { [Prim(Undefined)] }
  function MixedReferences(): seq<Elem> { [Object(1), Object(2), Symbol(3), Symbol(4)] }

  /** The map of the "Mixed types of keys" walk-through, built from its four pairs. */
  method BuildMixedKeys() returns (m: MultiKeyMap<string>)
    ensures fresh(m) && m.Valid()
    ensures m.entries == MixedEntries()
  {
    var truthy, falsy, undef, references := MixedTruthy(), MixedFalsy(), MixedUndefined(), MixedReferences();
    var pairs := [(Array(truthy), "truthy"), (Array(falsy), "falsy"),
                  (Array(undef), "undefined"), (Array(references), "references")];
    var e1 := [(truthy, "truthy")];
    var e2 := e1 + [(falsy, "falsy")];
    var e3 := e2 + [(undef, "undefined")];
    var e4 := e3 + [(references, "references")];
    assert NativeMap.IndexOf(e1, falsy) == None;
    assert NativeMap.IndexOf(e2, undef) == None;
    assert NativeMap.IndexOf(e3, references) == None;
    assert pairs[..1][..0] == [] && pairs[..2][..1] == pairs[..1] && pairs[..3][..2] == pairs[..2];
    assert pairs[..4][..3] == pairs[..3];
    assert SetAll([], pairs[..1][..0]) == Some([]);
    assert pairs[..1][0] == (Array(truthy), "truthy");
    assert NativeMap.Put([], truthy, "truthy") == e1;
    assert SetAll([], pairs[..1]) == Some(e1);
    assert pairs[..2][1] == (Array(falsy), "falsy");
    assert NativeMap.Put(e1, falsy, "falsy") == e2;
    assert SetAll([], pairs[..2]) == Some(e2);
    assert pairs[..3][2] == (Array(undef), "undefined");
    assert NativeMap.Put(e2, undef, "undefined") == e3;
    assert SetAll([], pairs[..3]) == Some(e3);
    assert NativeMap.Put(e3, references, "references") == e4;
    assert pairs[..4] == pairs;
    var r := MultiKeyMap.Create(Iterable(pairs));
    m := r.value;
  }

  function MixedEntries(): seq<(seq<Elem>, string)>
  {
    [(MixedTruthy(), "truthy"), (MixedFalsy(), "falsy"), (MixedUndefined(), "undefined"), (MixedReferences(), "references")]
  }

  /** Each stored key of the walk-through finds its own value. */
  lemma MixedHits()
    ensures NativeMap.Get(MixedEntries(), MixedTruthy()) == Some("truthy")
    ensures NativeMap.Get(MixedEntries(), MixedFalsy()) == Some("falsy")
    ensures NativeMap.Get(MixedEntries(), MixedUndefined()) == Some("undefined")
    ensures NativeMap.Get(MixedEntries(), MixedReferences()) == Some("references")
  {
    var e := MixedEntries();
    NativeMap.IndexOfUnique(e, 0);
    NativeMap.IndexOfUnique(e, 1);
    NativeMap.IndexOfUnique(e, 2);
    NativeMap.IndexOfUnique(e, 3);
  }

  /** A key equal to none of the walk-through's stored keys finds nothing. */
  lemma MixedMiss(q: seq<Elem>)
    requires q != MixedTruthy() && q != MixedFalsy() && q != MixedUndefined() && q != MixedReferences()
    ensures NativeMap.Get(MixedEntries(), q) == None
  {
  }

  /**
   * The "Mixed types of keys" walk-through: keys that agree position by
   * position are found, and so is the sparse array [,], whose hole reads as
   * undefined; a changed type, an extra element, "null" for null, "undefined"
   * for undefined, two identities swapped, or a fresh symbol in place of a
   * stored one are not.
   */
  method MixedKeysScenario() returns (hits: seq<Option<string>>, misses: seq<Option<string>>, size: nat)
    ensures hits == [Some("truthy"), Some("falsy"), Some("undefined"), Some("undefined"), Some("references")]
    ensures misses == [None, None, None, None, None, None, None]
    ensures size == 4
  {
    var truthy, falsy, undef, references := MixedTruthy(), MixedFalsy(), MixedUndefined(), MixedReferences();
    var hole := [Prim(Undefined)];
    var q1 := [Prim(Num(Finite(1.0))), Prim(Str("1")), Prim(Str("true"))];
    var q2 := truthy + [Prim(Num(Finite(1.0)))];
    var q3 := [Prim(Bool(false)), Prim(Str("null")), Prim(Undefined)];
    var q4 := [Object(2), Object(1), Symbol(3), Symbol(4)];
    var q5 := [Prim(Str("undefined"))];
    var q6 := [Object(1), Object(2), Symbol(4), Symbol(3)];
    var q7 := [Object(1), Object(2), Symbol(3), Symbol(5)];
    MixedHits();
    assert q1[2] != truthy[2] && q1[0] != falsy[0] && |q1| != |undef| && |q1| != |references|;
    MixedMiss(q1);
    assert |q2| != |truthy| && |q2| != |falsy| && |q2| != |undef| && q2[0] != references[0];
    MixedMiss(q2);
    assert q3[0] != truthy[0] && q3[1] != falsy[1] && |q3| != |undef| && |q3| != |references|;
    MixedMiss(q3);
    assert |q4| != |truthy| && |q4| != |falsy| && |q4| != |undef| && q4[0] != references[0];
    MixedMiss(q4);
    assert |q5| != |truthy| && |q5| != |falsy| && q5[0] != undef[0] && |q5| != |references|;
    MixedMiss(q5);
    assert |q6| != |truthy| && |q6| != |falsy| && |q6| != |undef| && q6[2] != references[2];
    MixedMiss(q6);
    assert |q7| != |truthy| && |q7| != |falsy| && |q7| != |undef| && q7[3] != references[3];
    MixedMiss(q7);

    var m := BuildMixedKeys();
    var h1 := m.Get(Array(truthy));
    var h2 := m.Get(Array(falsy));
    var h3 := m.Get(Array(undef));
    var h4 := m.Get(Array(hole));
    var h5 := m.Get(Array(references));
    var m1 := m.Get(Array(q1));
    var m2 := m.Get(Array(q2));
    var m3 := m.Get(Array(q3));
    var m4 := m.Get(Array(q4));
    var m5 := m.Get(Array(q5));
    var m6 := m.Get(Array(q6));
    var m7 := m.Get(Array(q7));
    hits := [h1.value, h2.value, h3.value, h4.value, h5.value];
    misses := [m1.value, m2.value, m3.value, m4.value, m5.value, m6.value, m7.value];
    size := m.Size();
  }
}
