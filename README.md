# many-keys-map in Dafny

A model of `MultiKeyMap` (index.js), a JavaScript `Map` subclass whose key is an
array of values. It is meant to compare primitives in the array by value, and
objects, functions, symbols and `null` by identity.

index.js does not quite do that. Functions are never tagged (index.js:38).
`JSON.stringify` writes `NaN`, both infinities and `undefined` as `null`
(index.js:55). A string spelling a tag collides with that tag (index.js:45).
Each of these collisions is modelled as written in `as_written.dfy` and listed
under "## Findings". The class itself is modelled with the corrected
behaviour. For that behaviour the model proves that the class finds exactly the
entry whose key array has the same length and, position by position, the same
primitive or the same identity.

The class has three layers:

- **Identity tagging** (`tagging.dfy`). The object table (`objectHashes`) and the
  symbol table (`symbolHashes`, which also holds the private `nullKey` symbol
  that stands for `null`) record the tag of each identity. New tags come from
  the counter `keyCounter`. `Mint` specifies write mode (`[createPrivateKey]`).
  `ReadKey` is read mode (`[getPrivateKey]`). Read mode yields `None` where
  index.js builds its random "impossible" key.
- **The index** (`multi_key_map.dfy`). `publicKeys` maps each fingerprint to the
  canonical key array. The canonical key is the key under which the inherited
  native `Map` stores the value.
- **The native Map** (`native_map.dfy`). The inherited store is a sequence of
  entries in insertion order: `Put` is `Map.prototype.set`, `Remove` is
  `delete`, `Get` and `HasKey` are `get` and `has`, and `size` is the
  sequence's length.

`MultiKeyMap` is a class with the source's fields. `CreatePrivateKey` loops over
the key like index.js does and is proved equal to `Mint`. `Set`, `Get`, `Has`,
`Delete` and the inherited `Clear` are stated against the native-Map functions:
`Get(keys)` returns `NativeMap.Get(entries, keys)`, and so on. The invariant
`Consistent` ties the tables, the index and the store together. `NoStale` says
the index has no entry without a stored value; it holds until the inherited
`clear` runs. `as_written.dfy` keeps the fingerprint exactly as index.js
serialises it, for the findings below.

Key elements are `Elements.Elem`:

- `Prim(p)`: undefined, booleans, numbers and strings.
- `Null`.
- `Object(id)`, `Function(id)` and `Symbol(id)`. The `id` names the identity.

Numbers are `NaN`, the two infinities, or a finite real. So `+0` and `-0` are
one value, and `NaN` equals `NaN`. This is SameValueZero, the key equality of
the native `Map`.

Where the library's tests and index.js disagree, the model follows index.js:

- `set` files the caller's own array as the canonical key (index.js:86-87);
  no copy is made. test/many-keys-map.test.js:313-322 expects the index to keep
  `[1, 2]` after the caller pushes onto that array.
- `clear` is inherited. It empties only the store, not `publicKeys` or
  `symbolHashes`. test/many-keys-map.test.js:137-158 expects both emptied.

Read mode maps every element of the key (`keys.map`, index.js:55). When an
identity has no tag, the element gets a random text, and the whole lookup
finds nothing; the model gives `None` there.

The one departure from index.js is the three fingerprint collisions under
"## Findings". There the rest of the model uses the corrected fingerprint.

## Model

| member | source | states |
|---|---|---|
| `Elements.Classify` | index.js:34-38 | null is looked up as the private null symbol; exactly objects and (corrected) functions go to the object table; exactly symbols and null go to the symbol table; exactly the primitives pass through by value, unchanged |
| `Elements.ClassifyInjective` | index.js:34-38 | two elements are classified alike exactly when they are the same primitive or the same identity |
| `Tagging.Record` | index.js:45-46 | a new tag is the current counter value, the counter goes up by one, and no other identity's tag changes |
| `Tagging.ReadSlot` | index.js:56-71 | a primitive reads as itself; an identity reads as its tag, and reads as nothing exactly when it has no tag |
| `Tagging.ReadKey` | index.js:54-73 | read mode yields a fingerprint exactly when every identity in the key already has a tag; it has one slot per element, each slot being the element's tag or the element itself |
| `Tagging.ReadKeyExtends` | index.js:41-43 | a fingerprint computed from some tables is computed the same from any tables that keep those tags: tags are stable |
| `Tagging.ReadSlotInjective` | index.js:38-50 | two elements with the same slot are the same primitive or the same identity |
| `Tagging.ReadKeyMatches` | index.js:54-73 | with valid tables, two keys have the same fingerprint exactly when they are equal: same length, and at each position the same primitive or identity (different length, order or identity gives a different fingerprint) |
| `Tagging.NullIsDistinct` | index.js:8 | the fingerprint of `[null]` differs from those of `["null"]` and `[undefined]` |
| `Tagging.MintSlot` | index.js:38-50 | one write-mode step returns the slot read mode then gives; either the tables are unchanged, or the counter goes up by one and the slot is the tag drawn from the old counter |
| `Tagging.Mint` | index.js:32-52 | write mode gives one slot per element and draws at most one new tag per element |
| `Tagging.MintSlotSpec` | index.js:38-50 | one write-mode step keeps the tables valid, keeps every earlier tag, draws a new tag only at or after the counter, tags the element, and touches no other identity |
| `Tagging.MintSpec` | index.js:32-52 | write mode keeps the tables valid (tags below the counter, no tag shared), keeps every earlier tag, tags only identities the key mentions and only with values at or after the old counter, and returns exactly the fingerprint read mode then computes |
| `Tagging.MintTagged` | index.js:41-43 | when every identity is already tagged, write mode changes no table and returns the read-mode fingerprint |
| `Tagging.MintStable` | index.js:32-52 | a second write-mode call on the same key returns the same fingerprint and changes nothing |
| `NativeMap.IndexOf` | index.js:12 | the position found holds the key; no position holds a key that is not found |
| `NativeMap.IndexOfUnique` | index.js:12 | with distinct keys, the entry at a position is the one found for its key |
| `NativeMap.HasKey` | index.js:106 | the native has holds exactly when some entry has the key |
| `NativeMap.Get` | index.js:98 | the native get finds a value exactly when the key is present, and that value is stored under the key |
| `NativeMap.Put` | index.js:90 | the native set grows the map only for a new key, leaves every entry with another key in place, and stores (k, v) |
| `NativeMap.Remove` | index.js:116 | the native delete shrinks the map by one exactly when the key was present and adds no entry |
| `NativeMap.GetFinds` | index.js:98 | the native get returns v exactly when (k, v) is an entry |
| `NativeMap.PutSpec` | index.js:90 | the native set keeps keys distinct, grows the map by one only for a new key, leaves an existing key in its position with only its value replaced, and afterwards maps k to v and every other key as before |
| `NativeMap.RemoveSpec` | index.js:116 | the native delete keeps keys distinct, shrinks the map by one exactly when the key was present, and afterwards k is absent and every other key unaffected |
| `NativeMap.KeySetSize` | index.js:12 | with distinct keys the number of keys is the number of entries |
| `MultiKeys.Resolve` | index.js:98 | a stored key always resolves to an indexed fingerprint, and an indexed fingerprint leads back to exactly the key looked up; a key with an untagged identity is never found |
| `MultiKeys.ConsistentAfterMint` | index.js:80 | tagging more identities keeps the index and store consistent |
| `MultiKeys.IndexInsert` | index.js:82-90 | an indexed fingerprint already leads to the key itself; filing the key and storing the value keeps the invariant and leaves no stale index entry |
| `MultiKeys.IndexRemove` | index.js:114-116 | a stored key is indexed under its fingerprint, and dropping both keeps the invariant and leaves no stale index entry |
| `MultiKeys.InjectiveMapSize` | index.js:83-88 | an index whose entries lead to distinct keys has as many distinct keys as entries |
| `MultiKeys.IndexSize` | index.js:83-88 | while no index entry is stale, `publicKeys` has exactly as many entries as the map's `size` |
| `MultiKeys.NewFingerprintIffNewEntry` | index.js:83-88 | while no index entry is stale, a key's fingerprint is indexed exactly when the key is stored, so `set` adds an index entry and grows `size` only for a new fingerprint |
| `MultiKeys.SetAll` | index.js:27-29 | the constructor loop succeeds exactly when every pair's keys is an array, and stores at most one new entry per pair |
| `MultiKeys.SetAllStops` | index.js:27-29 | once one pair's keys is not an array, the whole construction throws |
| `MultiKeys.MultiKeyMap.constructor` | index.js:13-17 | the tables, the index and the store start empty and consistent |
| `MultiKeys.MultiKeyMap.Create` | index.js:13-30 | null or undefined gives an empty map; a non-iterable value throws TypeError naming its type; otherwise the store equals `set` applied to each pair in order, or TypeError if some pair's keys is not an array |
| `MultiKeys.MultiKeyMap.CreatePrivateKey` | index.js:32-52 | the loop over the key leaves the tables and the counter as `Mint` says and returns its fingerprint |
| `MultiKeys.MultiKeyMap.Set` | index.js:75-91 | TypeError with no change for a non-array; otherwise returns the map itself, tags as `Mint` says, stores the value as the native set does, adds an index entry only for a new fingerprint, and keeps the invariant |
| `MultiKeys.MultiKeyMap.Get` | index.js:93-99 | TypeError for a non-array; otherwise the value stored under the equal key, or nothing, and no state changes |
| `MultiKeys.MultiKeyMap.Has` | index.js:101-107 | TypeError for a non-array; otherwise whether a value is stored under the equal key (so it agrees with `Get`), and no state changes |
| `MultiKeys.MultiKeyMap.Delete` | index.js:109-117 | TypeError with no change for a non-array; otherwise true exactly when the key was stored; the entry and its index entry go only then; on a miss nothing changes; the identity tables are never touched |
| `MultiKeys.MultiKeyMap.Clear` | index.js:12 | the inherited clear empties the store and keeps the invariant; `publicKeys` and the identity tables keep their contents |
| `MultiKeys.BuildMixedKeys` | test/many-keys-map.test.js:277-305 | building from the four keys of the mixed-types test stores all four, in insertion order |
| `MultiKeys.MixedKeysScenario` | test/many-keys-map.test.js:276-311 | the four stored keys are found, and so is `[,]`, whose hole reads as `undefined`; a changed type, an extra element, `"null"` for `null`, `"undefined"` for `undefined`, swapped objects, swapped symbols and a fresh symbol are not; the size is 4 |
| `AsWritten.Decimal` | index.js:45 | the decimal text of a tag number is non-empty, made of digits only, and at least two digits long from 10 on |
| `AsWritten.TagText` | index.js:45 | a tag's text starts with `@@mkm-ref-` and ends with `@@`, and never contains `.`, so it never equals the random text read mode builds at index.js:68 |
| `AsWritten.PrimJson` | index.js:55 | as written, a primitive is serialised as `null` exactly when it is `undefined`, `NaN` or an infinity, and as a string exactly when it is a string |
| `AsWritten.WrittenSlot` | index.js:55-72 | as written, an element is serialised as `null` exactly when it is a function or a primitive written as `null`, and gives the random text exactly when it is an untagged object, symbol or `null` |
| `AsWritten.WrittenReadKey` | index.js:54-73 | read mode as written gives a JSON array exactly when every tagged kind of element has a tag; functions and primitives pass through |
| `AsWritten.FunctionsCollide` | index.js:38 | as written, any two functions and `undefined` all give the fingerprint `[null]` |
| `AsWritten.TagTextCollides` | index.js:45 | as written, a string spelling an object's tag gives that object's fingerprint |
| `AsWritten.NonFiniteCollide` | index.js:55 | as written, `NaN`, `Infinity`, `-Infinity` and `undefined` give one fingerprint |
| `AsWritten.DecimalInjective` | index.js:45 | distinct tag numbers have distinct decimal texts |
| `AsWritten.TagTextInjective` | index.js:45 | distinct tags have distinct texts |
| `AsWritten.WrittenSlotInjective` | index.js:54-73 | as written, two elements avoiding functions, NaN, the infinities and tag-shaped strings share a slot only when they are equal |
| `AsWritten.WrittenMatchesOnPlainKeys` | index.js:54-73 | as written, on keys that avoid functions, NaN, the infinities and tag-shaped strings, fingerprints are equal exactly when the keys are: there the code agrees with the corrected fingerprint |

## Left out

- Iteration (`keys`, `values`, `entries`, the default iterator) and `forEach` are inherited from the native Map. So are the `size` getter, `@@toStringTag`, receiver checks and live-mutation iterator semantics. The model keeps the store's insertion order only, so that "overwrite keeps its position" can be stated.
- The object table is a `WeakMap`. Garbage collection cannot be expressed, so the model uses a plain map and never drops entries.
- The random "impossible" key (`Math.random()`, index.js:68) is modelled as `None`. The model does not capture that its text could, with vanishing probability, equal a stored fingerprint.
- The fingerprint text is left out: `JSON.stringify` turns the substituted array into a string. The corrected model keeps the slot sequence. `AsWritten` keeps the JSON values, without their text form, which is injective on arrays of JSON primitives.
- The two zeros are one value in the model (`Finite(0.0)`), as SameValueZero has it. Floating-point formatting is not modelled.
- BigInt key elements are not modelled. `JSON.stringify` throws on them.
- `Tagging.Record`: the counter is an unbounded natural. In index.js it is a double, and from 2^53 on `keyCounter++` (index.js:45) leaves it unchanged, so every later tag repeats. The source keeps tags unique only for fewer than 2^53 new tags; `Tagging.Valid`'s "no tag shared" does not model that limit.
- The counter `keyCounter` is module-level in index.js and shared by every map. It is modelled as a field of each map. Tag numbers therefore differ from a real run, but tags stay unique within each map, which is all the tables need.
- Aliasing is not modelled. `set` files the caller's array itself (index.js:86), and key arrays are Dafny sequences. The model does not capture a caller mutating that array after `set`, and makes no claim that a copy is taken.
- `MultiKeys.MultiKeyMap.Clear`: the inherited `clear` leaves `publicKeys` and `symbolHashes` full. The tests at test/many-keys-map.test.js:137-158 expect them emptied, but they read fields (`_publicKeys`, `_symbolHashes`) that index.js does not have. The model proves what the code does: afterwards nothing is found and `size` is 0. `NoStale` fails until the stale index entries are overwritten; `Set` and `Delete` handle stale entries as index.js does.
- `MultiKeys.MultiKeyMap.Get`: JavaScript returns `undefined` both for a missing key and for a stored `undefined`. The model returns `None` for the first and `Some(v)` for the second.
- Constructor items that cannot be destructured as `[keys, value]` are not modelled; each item is a pair. A missing value in `set` (one argument) is simply a value of the value type.
- test-core-js.js exercises the native `Map` with non-array keys, which index.js rejects. It is not part of this model. Neither are index.d.ts, index.test-d.ts, xo.config.js and jest.config.js.

## Findings

| source | as written | input that shows it | evidently intended | confidence | as-written member | corrected member |
|---|---|---|---|---|---|---|
| index.js:38 | `typeof` gives `'function'` for a function, so functions are not tagged; `JSON.stringify` writes each one as `null` | `set([f1], 'function'); set([f2], 'function2')` leaves `size` 1, and `get([f1])` returns `'function2'`; `get([undefined])` finds it too | each function is its own identity, as test/many-keys-map.test.js:245-254 expects | high; not executed | `AsWritten.FunctionsCollide` | `Tagging.ReadKeyMatches` |
| index.js:45 | tags are plain strings inside the serialised array | on a new map, `set([{}], 'x'); get(['@@mkm-ref-0@@'])` returns `'x'` (tag 0 assumed; the real counter is shared between maps) | no string collides with a tag | medium; not executed | `AsWritten.TagTextCollides` | `Tagging.ReadKeyMatches` |
| index.js:55 | `JSON.stringify` writes `NaN`, `Infinity`, `-Infinity` and `undefined` as `null` | `set([Infinity], 'a'); get([-Infinity])` returns `'a'` | only equal primitives match: `NaN` only `NaN`, each infinity only itself | high; not executed | `AsWritten.NonFiniteCollide` | `Tagging.ReadKeyMatches` |
