/**
 * The fingerprint exactly as index.js builds it: tags are the strings
 * "@@mkm-ref-<n>@@", functions are not tagged, and the substituted array goes
 * through JSON.stringify, which writes undefined, NaN, the infinities and
 * functions as null. The rest of the model uses Tagging.ReadKey instead;
 * this module shows where the two part ways and that they agree elsewhere.
 */
module AsWritten {
  import opened Wrappers
  import opened Elements
  import opened Tagging

  /** The JSON values a stringified fingerprint array holds. */
  datatype Json = JNull | JBool(b: bool) | JNumber(x: real) | JString(s: string)

  function Digit(d: nat): char
    requires d < 10
  {
    ('0' as int + d) as char
  }

  /** The decimal text of n, as a template literal writes it. */
  function Decimal(n: nat): (s: string)
    ensures |s| >= 1
    ensures forall i :: 0 <= i < |s| ==> '0' <= s[i] <= '9'
    ensures n >= 10 ==> |s| >= 2
    decreases n
  {
    if n < 10 then [Digit(n)] else Decimal(n / 10) + [Digit(n % 10)]
  }

  /**
   * The text of tag n. It never contains '.', so it never equals the
   * "impossible" text that getPrivateKey builds around a '.'.
   */
  function TagText(n: nat): (t: string)
    ensures |t| >= 13 && t[..10] == "@@mkm-ref-" && t[|t| - 2..] == "@@"
    ensures '.' !in t
  {
    "@@mkm-ref-" + Decimal(n) + "@@"
  }

  /** JSON.stringify of a primitive inside an array. */
  function PrimJson(p: Primitive): (j: Json)
    ensures j == JNull <==> p.Undefined? || (p.Num? && !p.n.Finite?)
    ensures j.JString? <==> p.Str?
  {
    match p
    case Undefined => JNull
    case Bool(b) => JBool(b)
    case Num(Finite(x)) => JNumber(x)
    case Num(_) => JNull
    case Str(s) => JString(s)
  }

  /**
   * One element of getPrivateKey as written: a function is neither an object
   * nor a symbol to typeof, so it is passed through and stringified as null;
   * an identity without a tag gives the random "impossible" text (None).
   */
  function WrittenSlot(R: Registry, e: Elem): (j: Option<Json>)
    ensures j == Some(JNull) <==> e.Function? || (e.Prim? && PrimJson(e.p) == JNull)
    ensures j.None? <==> !e.Prim? && !e.Function? && TagOf(R, Classify(e).r).None?
  {
    match e
    case Prim(p) => Some(PrimJson(p))
    case Function(_) => Some(JNull)
    case _ =>
      var r := Classify(e).r;
      if TagOf(R, r).Some? then Some(JString(TagText(TagOf(R, r).value))) else None
  }

  /** getPrivateKey as written, with the stringified array kept as its JSON values. */
  function WrittenReadKey(R: Registry, keys: seq<Elem>): (r: Option<seq<Json>>)
    ensures r.Some? <==> forall i :: 0 <= i < |keys| ==> WrittenSlot(R, keys[i]).Some?
    ensures r.Some? ==> |r.value| == |keys|
    ensures r.Some? ==> forall i :: 0 <= i < |keys| ==> WrittenSlot(R, keys[i]) == Some(r.value[i])
  {
    if forall i :: 0 <= i < |keys| ==> WrittenSlot(R, keys[i]).Some? then
      Some(seq(|keys|, i requires 0 <= i < |keys| => WrittenSlot(R, keys[i]).value))
    else None
  }

  /** Any two functions, and undefined, give one fingerprint as written. */
  lemma FunctionsCollide(R: Registry, f: nat, g: nat)
    ensures WrittenReadKey(R, [Function(f)]) == Some([JNull])
    ensures WrittenReadKey(R, [Function(f)]) == WrittenReadKey(R, [Function(g)])
    ensures WrittenReadKey(R, [Function(f)]) == WrittenReadKey(R, [Prim(Undefined)])
  {
    assert WrittenReadKey(R, [Function(f)]).value == [JNull];
    assert WrittenReadKey(R, [Function(g)]).value == [JNull];
    assert WrittenReadKey(R, [Prim(Undefined)]).value == [JNull];
  }

  /** A string equal to the text of an object's tag gives that object's fingerprint as written. */
  lemma TagTextCollides(R: Registry, o: nat)
    requires TagOf(R, InObjects(PlainObject(o))).Some?
    ensures WrittenReadKey(R, [Object(o)]) ==
            WrittenReadKey(R, [Prim(Str(TagText(TagOf(R, InObjects(PlainObject(o))).value)))])
  {
    var t := JString(TagText(TagOf(R, InObjects(PlainObject(o))).value));
    assert WrittenReadKey(R, [Object(o)]).value == [t];
    assert WrittenReadKey(R, [Prim(Str(t.s))]).value == [t];
  }

  /** NaN, both infinities and undefined give one fingerprint as written. */
  lemma NonFiniteCollide(R: Registry)
    ensures WrittenReadKey(R, [Prim(Num(PosInfinity))]) == WrittenReadKey(R, [Prim(Num(NegInfinity))])
    ensures WrittenReadKey(R, [Prim(Num(PosInfinity))]) == WrittenReadKey(R, [Prim(Num(NaN))])
    ensures WrittenReadKey(R, [Prim(Num(NaN))]) == WrittenReadKey(R, [Prim(Undefined)])
  {
    assert WrittenReadKey(R, [Prim(Num(PosInfinity))]).value == [JNull];
    assert WrittenReadKey(R, [Prim(Num(NegInfinity))]).value == [JNull];
    assert WrittenReadKey(R, [Prim(Num(NaN))]).value == [JNull];
    assert WrittenReadKey(R, [Prim(Undefined)]).value == [JNull];
  }

  /** Distinct numbers have distinct decimal texts. */
  lemma {:induction false} DecimalInjective(a: nat, b: nat)
    ensures Decimal(a) == Decimal(b) ==> a == b
    decreases a
  {
    if Decimal(a) == Decimal(b) && a >= 10 && b >= 10 {
      var da, db := Decimal(a), Decimal(b);
      assert da[|da| - 1] == Digit(a % 10) && db[|db| - 1] == Digit(b % 10);
      assert da[..|da| - 1] == Decimal(a / 10) && db[..|db| - 1] == Decimal(b / 10);
      DecimalInjective(a / 10, b / 10);
    }
  }

  /** Distinct tags have distinct texts. */
  lemma TagTextInjective(a: nat, b: nat)
    ensures TagText(a) == TagText(b) <==> a == b
  {
    if TagText(a) == TagText(b) {
      var n := |Decimal(a)|;
      assert |Decimal(b)| == n;
      assert TagText(a)[10..10 + n] == Decimal(a);
      assert TagText(b)[10..10 + n] == Decimal(b);
      DecimalInjective(a, b);
    }
  }

  /**
   * An element the as-written encoding handles: not a function, not NaN or an
   * infinity, and not a string that spells a tag.
   */
  ghost predicate Plain(e: Elem)
  {
    && !e.Function?
    && !(e.Prim? && e.p.Num? && !e.p.n.Finite?)
    && !(e.Prim? && e.p.Str? && exists n :: e.p.s == TagText(n))
  }

  lemma WrittenSlotInjective(R: Registry, a: Elem, b: Elem)
    requires Tagging.Valid(R) && Plain(a) && Plain(b) && WrittenSlot(R, a).Some?
    ensures WrittenSlot(R, a) == WrittenSlot(R, b) <==> a == b
  {
    if WrittenSlot(R, a) == WrittenSlot(R, b) && !a.Prim? && !b.Prim? {
      var r, q := Classify(a).r, Classify(b).r;
      TagTextInjective(TagOf(R, r).value, TagOf(R, q).value);
      ClassifyInjective(a, b);
    }
  }

  /**
   * On keys made of plain elements the as-written fingerprint is injective,
   * as the corrected one is on all keys: equal fingerprints exactly when the
   * keys are equal.
   */
  lemma WrittenMatchesOnPlainKeys(R: Registry, k1: seq<Elem>, k2: seq<Elem>)
    requires Tagging.Valid(R) && WrittenReadKey(R, k1).Some?
    requires forall i :: 0 <= i < |k1| ==> Plain(k1[i])
    requires forall i :: 0 <= i < |k2| ==> Plain(k2[i])
    ensures WrittenReadKey(R, k1) == WrittenReadKey(R, k2) <==> k1 == k2
  {
    if WrittenReadKey(R, k1) == WrittenReadKey(R, k2) {
      forall i | 0 <= i < |k1|
        ensures k1[i] == k2[i]
      {
        WrittenSlotInjective(R, k1[i], k2[i]);
      }
    }
  }
}
