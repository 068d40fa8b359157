/**
 * The elements a MultiKeyMap key array may hold, and how index.js sorts each
 * one: compared by value (passed through into the fingerprint) or compared
 * by identity (replaced by a tag from one of the two identity tables).
 */
module Elements {

  /** A JavaScript number. Finite values are reals, so +0 and -0 are one value. */
  datatype Number = NaN | PosInfinity | NegInfinity | Finite(x: real)

  /** Elements that a key compares by value. */
  datatype Primitive = Undefined | Bool(b: bool) | Num(n: Number) | Str(s: string)

  /**
   * One element of a key array. Null, Object (arrays included), Function and
   * Symbol compare by identity; `id` names the identity, so two elements are
   * the same identity exactly when they are equal.
   */
  datatype Elem = Prim(p: Primitive) | Null | Object(id: nat) | Function(id: nat) | Symbol(id: nat)

  /** Keys of the object table (a WeakMap in index.js). */
  datatype ObjectKey = PlainObject(id: nat) | FunctionObject(id: nat)

  /** Keys of the symbol table; NullKey is the private symbol that stands for null. */
  datatype SymbolKey = UserSymbol(id: nat) | NullKey

  /** An identity together with the table that records its tag. */
  datatype Ref = InObjects(o: ObjectKey) | InSymbols(s: SymbolKey)

  datatype Kind = ByValue(p: Primitive) | ByIdentity(r: Ref)

  /** One slot of a fingerprint: the tag of an identity, or a primitive passed through. */
  datatype Slot = Tag(n: nat) | PrimSlot(p: Primitive)

  /** The `keys` argument of set, get, has and delete: an array, or anything else. */
  datatype KeysArg = Array(items: seq<Elem>) | NotArray

  datatype TypeError = TypeError(message: string)

  /**
   * How an element is looked up: null becomes the private null symbol, objects
   * and functions go to the object table, symbols to the symbol table, and
   * everything else is compared by value.
   */
  function Classify(e: Elem): (k: Kind)
    ensures k.ByValue? <==> e.Prim?
    ensures k.ByValue? ==> k.p == e.p
    ensures k == ByIdentity(InSymbols(NullKey)) <==> e == Null
    ensures k.ByIdentity? && k.r.InObjects? <==> e.Object? || e.Function?
    ensures k.ByIdentity? && k.r.InSymbols? <==> e.Symbol? || e.Null?
  {
    match e
    case Prim(p) => ByValue(p)
    case Null => ByIdentity(InSymbols(NullKey))
    case Object(id) => ByIdentity(InObjects(PlainObject(id)))
    case Function(id) => ByIdentity(InObjects(FunctionObject(id)))
    case Symbol(id) => ByIdentity(InSymbols(UserSymbol(id)))
  }

  /** Distinct elements are never looked up as the same value or the same identity. */
  lemma ClassifyInjective(a: Elem, b: Elem)
    ensures Classify(a) == Classify(b) <==> a == b
  {
  }
}
