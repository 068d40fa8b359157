/**
 * The identity-tagging layer of MultiKeyMap: the object and symbol tables,
 * the counter that tags are drawn from, fingerprinting in read mode
 * (getPrivateKey) and the specification of write mode (createPrivateKey).
 */
module Tagging {
  import opened Wrappers
  import opened Elements

  /** The two identity tables of one map and the counter new tags come from. */
  datatype Registry = Registry(objects: map<ObjectKey, nat>, symbols: map<SymbolKey, nat>, counter: nat)

  /** The tag recorded for an identity, if any. */
  function TagOf(R: Registry, r: Ref): Option<nat>
  {
    match r
    case InObjects(o) => if o in R.objects then Some(R.objects[o]) else None
    case InSymbols(s) => if s in R.symbols then Some(R.symbols[s]) else None
  }

  /** Records the next tag for an identity in its table and advances the counter. */
  function Record(R: Registry, r: Ref): (R': Registry)
    ensures TagOf(R', r) == Some(R.counter)
    ensures R'.counter == R.counter + 1
    ensures forall q :: q != r ==> TagOf(R', q) == TagOf(R, q)
  {
    match r
    case InObjects(o) => R.(objects := R.objects[o := R.counter], counter := R.counter + 1)
    case InSymbols(s) => R.(symbols := R.symbols[s := R.counter], counter := R.counter + 1)
  }

  /** Every tag is below the counter, and no two identities share a tag. */
  ghost predicate Valid(R: Registry)
  {
    && (forall r :: TagOf(R, r).Some? ==> TagOf(R, r).value < R.counter)
    && (forall r, q :: TagOf(R, r).Some? && TagOf(R, r) == TagOf(R, q) ==> r == q)
  }

  /** R' keeps every tag of R and its counter has not gone back. */
  ghost predicate Extends(R: Registry, R': Registry)
  {
    R.counter <= R'.counter && forall r :: TagOf(R, r).Some? ==> TagOf(R', r) == TagOf(R, r)
  }

  /** Every tag R' has that R did not was drawn at or after R's counter. */
  ghost predicate FreshTags(R: Registry, R': Registry)
  {
    forall r :: TagOf(R, r).None? && TagOf(R', r).Some? ==> R.counter <= TagOf(R', r).value
  }

  /** Some element of keys is looked up as identity r. */
  ghost predicate Mentions(keys: seq<Elem>, r: Ref)
  {
    exists i :: 0 <= i < |keys| && Classify(keys[i]) == ByIdentity(r)
  }

  /** The read-mode slot of one element; None for an identity without a tag. */
  function ReadSlot(R: Registry, e: Elem): (s: Option<Slot>)
    ensures e.Prim? ==> s == Some(PrimSlot(e.p))
    ensures !e.Prim? ==> (s.Some? <==> TagOf(R, Classify(e).r).Some?)
    ensures !e.Prim? && s.Some? ==> s.value == Tag(TagOf(R, Classify(e).r).value)
  {
    match Classify(e)
    case ByValue(p) => Some(PrimSlot(p))
    case ByIdentity(r) => if TagOf(R, r).Some? then Some(Tag(TagOf(R, r).value)) else None
  }

  /** Every identity in keys already has a tag. */
  predicate Tagged(R: Registry, keys: seq<Elem>)
  {
    forall i :: 0 <= i < |keys| ==> ReadSlot(R, keys[i]).Some?
  }

  /**
   * getPrivateKey: the fingerprint of keys in read mode. None stands for the
   * "impossible" key built from random text when some identity has no tag.
   */
  function ReadKey(R: Registry, keys: seq<Elem>): (r: Option<seq<Slot>>)
    ensures r.Some? <==> Tagged(R, keys)
    ensures r.Some? ==> |r.value| == |keys|
    ensures r.Some? ==> forall i :: 0 <= i < |keys| ==> ReadSlot(R, keys[i]) == Some(r.value[i])
  {
    if Tagged(R, keys) then Some(seq(|keys|, i requires 0 <= i < |keys| => ReadSlot(R, keys[i]).value))
    else None
  }

  /** The write-mode slot of one element: the existing tag, or a newly recorded one. */
  function MintSlot(R: Registry, e: Elem): (m: (Registry, Slot))
    ensures ReadSlot(m.0, e) == Some(m.1)
    ensures m.0 == R || (m.0.counter == R.counter + 1 && m.1 == Tag(R.counter))
  {
    match Classify(e)
    case ByValue(p) => (R, PrimSlot(p))
    case ByIdentity(r) =>
      if TagOf(R, r).Some? then (R, Tag(TagOf(R, r).value)) else (Record(R, r), Tag(R.counter))
  }

  datatype Minted = Minted(reg: Registry, fp: seq<Slot>)

  /**
   * createPrivateKey: the registry and fingerprint after the elements of keys
   * are visited from first to last, each untagged identity being given the
   * next tag.
   */
  function Mint(R: Registry, keys: seq<Elem>): (m: Minted)
    ensures |m.fp| == |keys|
    ensures R.counter <= m.reg.counter <= R.counter + |keys|
    decreases |keys|
  {
    if keys == [] then Minted(R, [])
    else
      var m := Mint(R, keys[..|keys| - 1]);
      var step := MintSlot(m.reg, keys[|keys| - 1]);
      Minted(step.0, m.fp + [step.1])
  }

  /** A tag read in R is read the same in every extension of R. */
  lemma ReadKeyExtends(R: Registry, R': Registry, keys: seq<Elem>)
    requires Extends(R, R') && ReadKey(R, keys).Some?
    ensures ReadKey(R', keys) == ReadKey(R, keys)
  {
    forall i | 0 <= i < |keys|
      ensures ReadSlot(R', keys[i]) == ReadSlot(R, keys[i])
    {
      assert ReadSlot(R, keys[i]).Some?;
    }
    assert Tagged(R', keys);
    assert ReadKey(R', keys).value == ReadKey(R, keys).value;
  }

  /** Two elements with the same read-mode slot are the same value or the same identity. */
  lemma ReadSlotInjective(R: Registry, a: Elem, b: Elem)
    requires Valid(R) && ReadSlot(R, a).Some?
    ensures ReadSlot(R, a) == ReadSlot(R, b) <==> a == b
  {
    if ReadSlot(R, a) == ReadSlot(R, b) {
      match Classify(a)
      case ByValue(p) =>
        ClassifyInjective(a, b);
      case ByIdentity(r) =>
        var q := Classify(b).r;
        assert TagOf(R, r) == TagOf(R, q);
        ClassifyInjective(a, b);
    }
  }

  /**
   * Read mode is injective on tagged keys: two keys get the same fingerprint
   * exactly when they have the same length and, position by position, the
   * same primitive or the same identity.
   */
  lemma ReadKeyMatches(R: Registry, k1: seq<Elem>, k2: seq<Elem>)
    requires Valid(R) && ReadKey(R, k1).Some?
    ensures ReadKey(R, k1) == ReadKey(R, k2) <==> k1 == k2
  {
    if ReadKey(R, k1) == ReadKey(R, k2) {
      var fp := ReadKey(R, k1).value;
      forall i | 0 <= i < |k1|
        ensures k1[i] == k2[i]
      {
        assert ReadSlot(R, k1[i]) == Some(fp[i]) == ReadSlot(R, k2[i]);
        ReadSlotInjective(R, k1[i], k2[i]);
      }
    }
  }

  /** null is tracked through the private null symbol, apart from "null" and undefined. */
  lemma NullIsDistinct(R: Registry)
    requires Valid(R) && ReadKey(R, [Null]).Some?
    ensures ReadKey(R, [Null]) != ReadKey(R, [Prim(Str("null"))])
    ensures ReadKey(R, [Null]) != ReadKey(R, [Prim(Undefined)])
  {
    ReadKeyMatches(R, [Null], [Prim(Str("null"))]);
    ReadKeyMatches(R, [Null], [Prim(Undefined)]);
  }

  /** One write-mode step keeps the registry valid, only adds, and tags the element. */
  lemma MintSlotSpec(R: Registry, e: Elem)
    requires Valid(R)
    ensures Valid(MintSlot(R, e).0) && Extends(R, MintSlot(R, e).0) && FreshTags(R, MintSlot(R, e).0)
    ensures ReadSlot(MintSlot(R, e).0, e) == Some(MintSlot(R, e).1)
    ensures forall r :: Classify(e) != ByIdentity(r) ==> TagOf(MintSlot(R, e).0, r) == TagOf(R, r)
  {
    match Classify(e)
    case ByValue(p) =>
    case ByIdentity(r) =>
      if TagOf(R, r).None? {
        var R' := Record(R, r);
        forall q, q' | TagOf(R', q).Some? && TagOf(R', q) == TagOf(R', q')
          ensures q == q'
        {
        }
      }
  }

  /**
   * createPrivateKey keeps the registry valid, keeps every earlier tag, draws
   * new tags only for identities the key mentions and only at or after the old
   * counter, and returns the fingerprint that read mode then computes.
   */
  lemma {:induction false} MintSpec(R: Registry, keys: seq<Elem>)
    requires Valid(R)
    ensures Valid(Mint(R, keys).reg) && Extends(R, Mint(R, keys).reg) && FreshTags(R, Mint(R, keys).reg)
    ensures ReadKey(Mint(R, keys).reg, keys) == Some(Mint(R, keys).fp)
    ensures forall r :: !Mentions(keys, r) ==> TagOf(Mint(R, keys).reg, r) == TagOf(R, r)
    decreases |keys|
  {
    if keys != [] {
      var pre := keys[..|keys| - 1];
      var last := keys[|keys| - 1];
      var m := Mint(R, pre);
      MintSpec(R, pre);
      MintSlotSpec(m.reg, last);
      var R' := Mint(R, keys).reg;
      var fp := Mint(R, keys).fp;
      ReadKeyExtends(m.reg, R', pre);
      forall i | 0 <= i < |keys|
        ensures ReadSlot(R', keys[i]) == Some(fp[i])
      {
        if i < |pre| {
          assert keys[i] == pre[i];
          assert ReadSlot(m.reg, pre[i]) == Some(m.fp[i]);
        }
      }
      assert Tagged(R', keys);
      assert ReadKey(R', keys).value == fp;
      forall r | !Mentions(keys, r)
        ensures TagOf(R', r) == TagOf(R, r)
      {
        assert Classify(keys[|keys| - 1]) != ByIdentity(r);
      }
    }
  }

  /** On a key whose identities are all tagged, write mode changes nothing and agrees with read mode. */
  lemma {:induction false} MintTagged(R: Registry, keys: seq<Elem>)
    requires Tagged(R, keys)
    ensures Mint(R, keys) == Minted(R, ReadKey(R, keys).value)
    decreases |keys|
  {
    if keys != [] {
      var pre := keys[..|keys| - 1];
      assert Tagged(R, pre) by {
        forall i | 0 <= i < |pre| ensures ReadSlot(R, pre[i]).Some? {
          assert pre[i] == keys[i];
        }
      }
      MintTagged(R, pre);
      assert ReadKey(R, pre).value + [ReadSlot(R, keys[|keys| - 1]).value] == ReadKey(R, keys).value;
    }
  }

  /** A second createPrivateKey on the same key returns the same fingerprint and changes nothing. */
  lemma MintStable(R: Registry, keys: seq<Elem>)
    requires Valid(R)
    ensures Mint(Mint(R, keys).reg, keys) == Mint(R, keys)
  {
    MintSpec(R, keys);
    MintTagged(Mint(R, keys).reg, keys);
  }
}
