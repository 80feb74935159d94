# mongo-anywhere data-access core, modelled in Dafny

mongo-anywhere gives an application one interface to several document
stores. The interface is an abstract `DbInterface` with init, add, delete, update,
find-one, find-many and count, and an `addOrUpdateObject` built from those primitives.
This project models the logic that sits on top of the storage drivers and
proves properties of it:

- **The document codec** (`src/utils.ts`). It drops `undefined` fields at every depth
  and rewrites EJSON ObjectIds `{$oid: hex}` to tagged strings `"oid:<hex>"` and back.
  `serialize`/`deserialize` are built from these steps, and `ensureObjHasId` forces an
  `_id` onto a document.
- **The older local codec** in `src/InMemoryDbInterface.ts`. It treats every field
  named `_id` specially: encoding stores its bare hex, decoding rebuilds an ObjectId.
- **The caching decorator** (`src/CachedDbInterface.ts`). It is a string-keyed cache in
  front of a fallback backend.
- **The composite upsert** `addOrUpdateObject` (`src/DbInterface.ts`). It is modelled
  over a map-backed reference backend.
- **The `localStorage` stand-in** (`src/LocalStorageMock.ts`).
- **The in-memory backend** (`src/InMemoryDbInterface.ts`). Its minimongo collections
  are modelled as key-ordered maps of serialized documents.

## How the model is built

- Values are the datatype `JsonValue.Json`: undefined, null, booleans, integers,
  strings, arrays, objects as maps, and ObjectIds.
- An ObjectId is represented by its canonical lower-case 24-digit hex form.
- `{...v}` is `JsonValue.Spread`.
- EJSON is modelled in `Ejson` as far as the code relies on it: an ObjectId becomes
  `{$oid: hex}`, and `undefined` becomes `null`. `EJSON.deserialize(v)` is bson's
  `EJSON.parse(JSON.stringify(v))`. Its text pass drops undefined fields, turns undefined
  array elements into null and ObjectId instances into hex strings. Its reviver then reads
  an object with a set `$oid` back as an ObjectId.
- The `for…in` loops and the `.map` callbacks of the codecs are methods with `while`
  loops. Each is proved equal to a recursive specification function.
- The properties are lemmas about those functions.
- Each backend class keeps its state in fields. Its methods state the new state as a
  transition function of the old state. The properties are lemmas about the transition
  functions: cache coherence, find-after-add, delete-then-find, update in place, and
  count against find.
- Queries and selector matching are an abstract `matches` predicate. Where lemmas need
  it, they assume that `{_id: h}` selects exactly the documents whose `_id` is `h`.
- `JSON.stringify` is an abstract function `stringify`.
- Fresh ObjectIds and minimongo's uids are parameters.
- A thrown exception or a rejected promise is an `Err`, `None` or `Fail` value.
  `Error.CodecThrew` marks the in-memory codec throwing.

## Model

| member | source | states |
|---|---|---|
| JsonValue.ParseHexId | src/utils.ts:119 | `new ObjectId(hex)` is the lower-cased hex: digit by digit, and unchanged on canonical input |
| JsonValue.Spread | src/utils.ts:9 | `{...v}`: an object's own fields, an array's elements under index keys, `{}` for null and ObjectIds |
| JsonValue.Truthy | src/DbInterface.ts:60 | null and undefined are falsy; objects, arrays and ObjectIds are always truthy |
| JsonValue.JsString | src/InMemoryDbInterface.ts:46 | `String(x)` of a string is the string itself, and of an ObjectId its canonical hex |
| JsonValue.ToObjectId | src/DbInterface.ts:63 | `new ObjectId(x)` succeeds exactly on a 24-hex string or an ObjectId, and yields that id |
| Ejson.Serialize | src/utils.ts:108 | the result is JSON-safe; objects keep their keys, arrays their length; an ObjectId becomes `{$oid: hex}`, undefined becomes null |
| Ejson.ViaText | src/utils.ts:114 | the `JSON.stringify` pass: the result is JSON-safe, an object keeps exactly its defined keys and its id form, an array its length, an ObjectId becomes its hex text, and only nullish values become null |
| Ejson.PlainTextIsUnchanged | src/utils.ts:114 | the text pass leaves a JSON-safe value unchanged |
| Ejson.Revive | src/utils.ts:114 | the reviver: an object with a set `$oid` becomes an ObjectId or throws; other objects keep their keys, arrays their length; scalars are unchanged |
| Ejson.Deserialize | src/utils.ts:114 | undefined throws; an ObjectId comes back as its hex text; an object that is no id form keeps exactly its defined keys; arrays keep their length; other scalars are unchanged |
| Ejson.DeserializesFields | src/utils.ts:114 | an object that is no id form, whose fields each deserialize, deserializes field by field with the same keys |
| Ejson.DeserializesItems | src/utils.ts:114 | an array whose elements each deserialize deserializes element by element |
| Ejson.RevivesSerialized | src/utils.ts:106-115 | the reviver undoes `EJSON.serialize` on values without undefined and without reserved field names |
| Ejson.RoundTrip | src/utils.ts:106-115 | EJSON deserialize after serialize is the identity on values without undefined and without reserved field names (a `$` prefix, `_bsontype` or a NUL) |
| Ejson.RevivesPlain | src/utils.ts:114 | the reviver leaves a JSON-safe value without reserved field names unchanged |
| Ejson.DeserializePlain | src/utils.ts:114 | JSON-safe values without reserved field names pass through EJSON's deserializer unchanged |
| Utils.WithoutUndefined | src/utils.ts:6-32 | a key survives exactly when the spread copy holds it with a defined value |
| Utils.RemoveUndefinedValues | src/utils.ts:6-32 | the for-in loop builds exactly `WithoutUndefined(obj)` |
| Utils.CleanField | src/utils.ts:14-28 | one step of the for-in loop on a defined field computes exactly `CleanedField` |
| Utils.RemoveUndefinedFromItems | src/utils.ts:15-20 | the `.map` callback cleans every non-ObjectId element whose typeof is "object" and keeps the rest |
| Utils.WithoutUndefinedSettles | src/utils.ts:6-32 | no undefined field is left at any depth, including in objects nested in arrays |
| Utils.CleanedFieldSettles | src/utils.ts:12-28 | a cleaned field is settled, and a defined field stays defined |
| Utils.SettledIsUnchanged | src/utils.ts:6-32 | on an object with nothing to remove the function returns its fields unchanged |
| Utils.SettledFieldIsUnchanged | src/utils.ts:14-28 | a settled field is left unchanged by cleaning |
| Utils.RemoveUndefinedIdempotent | src/utils.ts:6-32 | removing undefined values twice is removing them once |
| Utils.KeepsObjectIdFields | src/utils.ts:21-27 | ObjectId fields are kept as they are and never descended into |
| Utils.NullElementBecomesEmptyObject | src/utils.ts:16 | `{a: [null]}` becomes `{a: [{}]}`: a null element is spread into an empty object |
| Utils.NestedArrayBecomesIndexedObject | src/utils.ts:16 | an array inside an array is spread into an object keyed by index |
| Utils.IsSerializedObjectId | src/utils.ts:42-46 | the test holds exactly for an object whose `$oid` is a 24-hex string or an ObjectId (the truthiness check never decides) |
| Utils.EncodeSerializedObjectId | src/utils.ts:34-36 | the result is the tag `oid:` followed by the text of `$oid` |
| Utils.SliceFrom | src/utils.ts:39 | `s.slice(n)` is the suffix from `n`, or empty when `s` is shorter |
| Utils.DecodeObjectId | src/utils.ts:38-40 | it succeeds exactly when what follows the tag is 24 hex digits, and yields that id |
| Utils.EncodeDecodeRoundTrip | src/utils.ts:34-40 | encoding any ObjectId's `{$oid}` passes the tag test, and decoding it gives the same id back |
| Utils.EncodeDecodeHex | src/utils.ts:34-40 | for a hex `$oid`, decoding the encoding is `new ObjectId(hex)` |
| Utils.IsEncodedObjectId | src/utils.ts:48-55 | whatever the tag test accepts is a string that `decodeObjectId` decodes without throwing, and is no bare hex id |
| Utils.EncodedIdsAreTaggedHex | src/utils.ts:48-55 | the tag test holds exactly for 28-character strings `"oid:" + h` with `h` a valid hex id |
| Utils.BareAndInvalidAreNotEncoded | src/utils.ts:48-55 | a bare hex id and the text "invalid" fail the tag test |
| Utils.Recode | src/utils.ts:58-63 | encoding yields the tagged string; decoding yields the ObjectId that `decodeObjectId` names |
| Utils.ReplaceOidOperatorForValue | src/utils.ts:57-65 | the result never passes the direction's tag test, and the value changes only when it passed it |
| Utils.Replaced | src/utils.ts:67-100 | the walk keeps the keys of the spread copy |
| Utils.ReplaceOidOperator | src/utils.ts:67-100 | the for-in loop builds exactly `Replaced(obj, idsToString)` |
| Utils.ReplaceField | src/utils.ts:74-96 | one step of the for-in loop computes exactly `ReplacedField`: a tagged value is recoded, an array mapped, an object walked, anything else passed to `replaceOidOperatorForValue` |
| Utils.ReplaceOidInItems | src/utils.ts:79-93 | the `.map` callback maps each element as `ReplacedItem` says |
| Utils.ArrayKeysAreDigits | src/utils.ts:71 | the index keys of a spread array are never `$oid` |
| Utils.WalkedIsNotSerialized | src/utils.ts:94-95 | walking a value that is not a serialized id cannot produce one |
| Utils.EncodingLeavesNoSerializedIds | src/utils.ts:67-100 | after encoding, no serialized `{$oid}` is left anywhere below the top level |
| Utils.EncodedFieldIsClean | src/utils.ts:74-96 | an encoded field or element is not, and holds no, serialized ObjectId |
| Utils.DecodingLeavesNoEncodedIds | src/utils.ts:67-100 | after decoding, no encoded `"oid:"` string is left anywhere below the top level |
| Utils.DecodedFieldIsClean | src/utils.ts:76-96 | a decoded field or element is not, and holds no, encoded id string |
| Utils.InertIsUnchanged | src/utils.ts:76-77 | decoding leaves an object unchanged when no leaf passes the tag test |
| Utils.InertFieldIsUnchanged | src/utils.ts:96 | every leaf that fails the tag test is left unchanged |
| Utils.Serialize | src/utils.ts:106-111 | the serialized document is JSON-safe and holds no serialized ObjectId below the top level |
| Utils.Deserialize | src/utils.ts:113-115 | a deserialized document holds no encoded id string below the top level |
| Utils.EncodedIsPlain | src/utils.ts:106-111 | encoding a JSON-safe value keeps it JSON-safe |
| Utils.EncodedFieldIsPlain | src/utils.ts:74-96 | encoding a JSON-safe field keeps it JSON-safe |
| Utils.CleanedIsPortable | src/utils.ts:6-32 | cleaning a portable document keeps it portable and leaves no undefined |
| Utils.CleanedFieldIsPortable | src/utils.ts:12-28 | cleaning a portable defined field keeps it portable and leaves no undefined |
| Utils.ObjectRoundTrip | src/utils.ts:67-115 | on a portable object with no undefined field, EJSON-serializing then encoding gives a plain value that decodes back to the object |
| Utils.FieldRoundTrip | src/utils.ts:74-96 | each portable field or element encodes to a plain value that decodes back to it |
| Utils.SerializeRoundTrip | src/utils.ts:106-115 | `deserialize(serialize(d))` is `d` with undefined fields removed, for every portable `d` |
| Utils.UndefinedBecomesNull | src/utils.ts:106-111 | with `removeUndefined` off, an undefined field is serialized as null |
| Utils.WithEnsuredId | src/utils.ts:117-123 | a set string `_id` becomes its ObjectId (or throws), an ObjectId is kept, and a falsy one gets the fresh id; other fields are untouched |
| Utils.EnsureObjHasId | src/utils.ts:117-123 | the object's fields become `WithEnsuredId`, or stay unchanged when bson throws |
| DbInterface.Col | src/DbInterface.ts:11 | a missing collection reads as empty; valid stores give valid collections |
| DbInterface.Lookup | src/DbInterface.ts:29-32 | a document is found exactly when its id is stored, and it is that document |
| DbInterface.MatchingFrom | src/DbInterface.ts:42-45 | the selection holds only matching stored documents, and every matching one |
| DbInterface.Matching | src/DbInterface.ts:42-45 | every selected document is stored under its own id, and every matching stored document is selected |
| DbInterface.FirstMatch | src/DbInterface.ts:34-37 | find-one finds something exactly when the selection is non-empty, and it is the first match |
| DbInterface.Initialized | src/DbInterface.ts:11 | init makes every named collection exist and changes no document |
| DbInterface.Inserted | src/DbInterface.ts:13-16 | the new document is found by its id, nothing else changes, the count grows by one, and its id goes last |
| DbInterface.Removed | src/DbInterface.ts:18-21 | the id is no longer found, and nothing else changes |
| DbInterface.MergedDoc | src/DbInterface.ts:23-27 | the stored document overlaid by the new values, keeping the id |
| DbInterface.Updated | src/DbInterface.ts:23-27 | the document becomes the merge, nothing else changes, and the order is kept |
| DbInterface.MapStore.constructor | src/DbInterface.ts:7-10 | a new backend is empty |
| DbInterface.MapStore.Init | src/DbInterface.ts:11 | the collections become `Initialized` |
| DbInterface.MapStore.AddObject | src/DbInterface.ts:13-16 | the object gets its id; a taken id is refused; otherwise the object is inserted and returned |
| DbInterface.MapStore.DeleteObjectById | src/DbInterface.ts:18-21 | the store becomes `Removed` |
| DbInterface.MapStore.UpdateObjectById | src/DbInterface.ts:23-27 | a missing id fails with not-found and changes nothing; otherwise the store becomes `Updated` |
| DbInterface.MapStore.FindObjectById | src/DbInterface.ts:29-32 | the result is the stored document for the id, and nothing changes |
| DbInterface.MapStore.FindObject | src/DbInterface.ts:34-37 | the result is the first match, and nothing changes |
| DbInterface.MapStore.FindObjects | src/DbInterface.ts:42-45 | the result is every match in insertion order, and nothing changes |
| DbInterface.MapStore.CountObjects | src/DbInterface.ts:47-50 | the result is the number of matches |
| DbInterface.MapStore.AddOrUpdateObject | src/DbInterface.ts:56-83 | no id means add: the object gets the fresh id and is inserted and returned, or refused when that id is taken; an id not stored means find then add, returning the input with its id as an ObjectId; a stored id means find then update, returning `{...existing, ...object}`; a string id that is no hex id rejects |
| DbInterface.UpsertKeepsCount | src/DbInterface.ts:70-79 | updating an existing id keeps the number of documents and their order |
| DbInterface.UpsertReturnsStoredDoc | src/DbInterface.ts:70-79 | with an ObjectId `_id`, what the upsert returns is exactly what is stored |
| DbInterface.UpsertWithStringIdDiffers | src/DbInterface.ts:76-79 | with a string `_id`, the returned `_id` is the string while the store keeps the ObjectId |
| DbInterface.AddedIsRetrievable | src/DbInterface.ts:82 | an added document is found by its id, and the count grows by one |
| Caching.GetCacheKey | src/CachedDbInterface.ts:10-16 | the key starts with `op + "." + collection + "."`, so its operation can be read off its prefix |
| Caching.IdKey | src/CachedDbInterface.ts:89 | the key of a document id is `"findOne." + collection + "." + hex`, in the find-one namespace |
| Caching.OperationsDoNotCollide | src/CachedDbInterface.ts:10-16 | keys built with different operation tags never coincide |
| Caching.IdKeysInjective | src/CachedDbInterface.ts:50 | two id keys are equal only for the same collection and id |
| Caching.TextKeysCanCollide | src/CachedDbInterface.ts:15 | a dot in a collection name lets two different (collection, text) pairs share a key |
| Caching.QueryKeysAreNotIdKeys | src/CachedDbInterface.ts:111 | a query whose JSON text ends in a brace never shares a key with an id key |
| Caching.IsHit | src/CachedDbInterface.ts:92 | `if (cached)`: a cached document or id list is always a hit, a cached count exactly when it is not 0 |
| Caching.Resolve | src/CachedDbInterface.ts:84-105 | a lookup by id sees the cached document on a hit, and the backend's otherwise |
| Caching.CacheEach | src/CachedDbInterface.ts:149-154 | the `forEach` adds exactly the id keys of the listed documents to the cache's keys |
| Caching.CacheEachTouchesOnlyIdKeys | src/CachedDbInterface.ts:149-154 | the `forEach` changes the id keys of the documents it caches, and no other key |
| Caching.CacheEachWellTyped | src/CachedDbInterface.ts:149-154 | the `forEach` keeps the cache well typed: find-one keys hold documents, find-multiple keys id lists, count keys counts |
| Caching.CacheMissesAdds | src/CachedDbInterface.ts:88-102 | looking ids up keeps every existing entry, caches the backend's document under the key of each listed id that was missing and is stored, and adds no other key |
| Caching.FetchedStep | src/CachedDbInterface.ts:134-138 | each further `findObjectById` extends the results by what a lookup of that id sees and the cache by `CacheMisses` |
| Caching.CoherentResolveIsLookup | src/CachedDbInterface.ts:84-105 | under coherence, a lookup by id sees exactly what the backend stores |
| Caching.CoherentAfterOtherKey | src/CachedDbInterface.ts:119 | writing a key that is no id key keeps coherence |
| Caching.CoherentAfterCachingDoc | src/CachedDbInterface.ts:97-102 | caching the backend's own document under its id keeps coherence |
| Caching.CoherentAfterCacheEach | src/CachedDbInterface.ts:149-154 | caching the backend's documents for a query keeps coherence |
| Caching.EachDocIsCached | src/CachedDbInterface.ts:149-154 | after the `forEach`, each returned document is what its id key holds |
| Caching.CachedUnderIdKey | src/CachedDbInterface.ts:149-154 | after caching a list, the id key of each listed document holds a document |
| Caching.CoherentAfterAdd | src/CachedDbInterface.ts:43-55 | adding a new document and caching it keeps coherence |
| Caching.RefusedAddBreaksCoherence | src/CachedDbInterface.ts:49-54 | the cache is written before the backend, so an add the backend refuses leaves the cache incoherent |
| Caching.CoherentAfterDelete | src/CachedDbInterface.ts:57-61 | dropping the id key and deleting the document keeps coherence |
| Caching.Overlay | src/CachedDbInterface.ts:73 | `{...cached, ...newValues}`: the union of keys, where new values win |
| Caching.AfterUpdate | src/CachedDbInterface.ts:63-82 | a cached entry is replaced by the overlay, a missing one stays missing, and no other key changes |
| Caching.CoherentAfterUpdate | src/CachedDbInterface.ts:63-82 | an update that keeps `_id` keeps coherence; for a missing id the cache is unchanged |
| Caching.UpdateOfIdBreaksCoherence | src/CachedDbInterface.ts:73-78 | new values that name another `_id` leave the cache holding an id the backend lacks |
| Caching.IdsOf | src/CachedDbInterface.ts:146 | `fallback.map(obj => obj._id)`: one id per document, in order |
| Caching.CachedDbInterface.constructor | src/CachedDbInterface.ts:28-31 | the decorator starts with no cache, around the given fallback |
| Caching.CachedDbInterface.Init | src/CachedDbInterface.ts:33-41 | starts the fallback and creates an empty cache only if there is none |
| Caching.CachedDbInterface.AddObject | src/CachedDbInterface.ts:43-55 | ensures the id, caches the object under it, and delegates the same object; coherence is kept when the add succeeds |
| Caching.CachedDbInterface.DeleteObjectById | src/CachedDbInterface.ts:57-61 | removes only the id key, delegates, and keeps coherence |
| Caching.CachedDbInterface.UpdateObjectById | src/CachedDbInterface.ts:63-82 | the cache becomes `AfterUpdate`, the update is always delegated, and its outcome is the fallback's |
| Caching.CachedDbInterface.FindObjectById | src/CachedDbInterface.ts:84-105 | a hit returns the cached document without calling the fallback; a miss calls it and caches a found document |
| Caching.CachedDbInterface.FindObject | src/CachedDbInterface.ts:107-123 | the same hit/miss rule, keyed by the stringified query |
| Caching.CachedDbInterface.FindObjects | src/CachedDbInterface.ts:125-158 | a hit resolves each cached id in order without calling `findObjects`, and the cache becomes `CacheMisses` of those ids; a miss caches the id list and each document |
| Caching.CachedDbInterface.FindEachById | src/CachedDbInterface.ts:134-138 | each cached id is resolved as `findObjectById` would, the fallback sees only find-by-id calls, and the cache becomes `CacheMisses` of the ids |
| Caching.CachedDbInterface.CacheFound | src/CachedDbInterface.ts:149-154 | the cache becomes `CacheEach` of the found documents, and coherence is kept |
| Caching.CachedDbInterface.CountObjects | src/CachedDbInterface.ts:160-176 | a truthy cached count is returned without the fallback; a fallback count is cached only when it is not 0 |
| LocalStorage.Stored | src/LocalStorageMock.ts:27-29 | the key holds the new text; a new key goes last in the key order, and an existing key keeps its place |
| LocalStorage.Deleted | src/LocalStorageMock.ts:31-33 | the key leaves the store, the store stays well formed, and removing an absent key changes nothing |
| LocalStorage.Item | src/LocalStorageMock.ts:19-25 | undefined exactly for keys that hold nothing; otherwise the stored document deserialized |
| LocalStorage.KeyAt | src/LocalStorageMock.ts:35-37 | a key exactly for indexes inside the key list, and it is a stored key |
| LocalStorage.SetThenGet | src/LocalStorageMock.ts:19-29 | reading back a set document gives it without its undefined fields |
| LocalStorage.SetThenGetExact | src/LocalStorageMock.ts:19-29 | a document with no undefined field reads back equal to what was set |
| LocalStorage.SetOverwrites | src/LocalStorageMock.ts:27-29 | setting a key twice is setting it once, to the second value |
| LocalStorage.SetKeepsOthers | src/LocalStorageMock.ts:27-29 | setting a key changes no other key's reading, and only a new key lengthens the key list |
| LocalStorage.RemoveOnlyThatKey | src/LocalStorageMock.ts:31-33 | the removed key reads undefined, every other key reads as before, and the list shrinks by one only if the key was there |
| LocalStorage.LengthCountsKeys | src/LocalStorageMock.ts:39-41 | `length` equals the number of distinct stored keys |
| LocalStorage.ClearedIsEmpty | src/LocalStorageMock.ts:15-17 | after clear, every key reads undefined and every index is out of range |
| LocalStorage.RemoveKeepsKeyOrder | src/LocalStorageMock.ts:31-37 | after `removeItem`, the keys before the removed one keep their index, the keys after it move up by one, and the list shrinks by one |
| LocalStorage.KeysInInsertionOrder | src/LocalStorageMock.ts:35-37 | new keys set one after another are listed in the order they were set |
| LocalStorage.LocalStorageMock.constructor | src/LocalStorageMock.ts:11-13 | a new mock is empty |
| LocalStorage.LocalStorageMock.Clear | src/LocalStorageMock.ts:15-17 | the store becomes empty |
| LocalStorage.LocalStorageMock.GetItem | src/LocalStorageMock.ts:19-25 | the result is `Item(store, key)` |
| LocalStorage.LocalStorageMock.SetItem | src/LocalStorageMock.ts:27-29 | the store becomes `Stored` of the serialized value |
| LocalStorage.LocalStorageMock.RemoveItem | src/LocalStorageMock.ts:31-33 | the store becomes `Deleted` |
| LocalStorage.LocalStorageMock.Key | src/LocalStorageMock.ts:35-37 | the result is `KeyAt(store, index)`, a stored key when defined |
| LocalStorage.LocalStorageMock.Length | src/LocalStorageMock.ts:39-41 | the result is the number of stored keys |
| InMemory.RemoveUndefinedValues | src/InMemoryDbInterface.ts:8-34 | the for-in loop builds exactly `WithoutUndefined(obj)`, with ObjectId array elements spread |
| InMemory.CleanField | src/InMemoryDbInterface.ts:16-30 | one step of the for-in loop on a defined field computes exactly `CleanedField` with ObjectId elements spread |
| InMemory.RemoveUndefinedFromItems | src/InMemoryDbInterface.ts:17-22 | the `.map` callback cleans every element whose typeof is "object" |
| InMemory.IdReplaced | src/InMemoryDbInterface.ts:43-46 | encoding an `_id` reads its `$oid` (undefined on a string); decoding gives `new ObjectId(String(x))` and throws exactly when that is not 24 hex digits; both throw on null and undefined |
| InMemory.LocalReplaced | src/InMemoryDbInterface.ts:36-65 | the walk keeps the keys of the spread copy, and it throws exactly when some field throws |
| InMemory.ReplaceOidOperator | src/InMemoryDbInterface.ts:36-65 | the for-in loop, with its early throws, computes exactly `LocalReplaced` |
| InMemory.ReplaceField | src/InMemoryDbInterface.ts:43-61 | one loop step computes exactly `LocalReplacedField` |
| InMemory.ReplaceOidInItems | src/InMemoryDbInterface.ts:48-53 | the `.map` succeeds exactly when every element does, and maps each as `LocalReplacedItem` says |
| InMemory.LocalSerialize | src/InMemoryDbInterface.ts:71-76 | a serialized document has no key the input lacked |
| InMemory.SerializedIdIsBareHex | src/InMemoryDbInterface.ts:43-44 | an ObjectId `_id` is stored as its bare hex, with no `oid:` tag |
| InMemory.LocalDeserialize | src/InMemoryDbInterface.ts:78-80 | null decodes to `{}`, and every top-level `_id` comes back as an ObjectId; undefined fields are dropped by EJSON's text pass before the walk |
| InMemory.SerializeDoc | src/InMemoryDbInterface.ts:71-76 | cleaning, EJSON and the walk, run in turn, compute `LocalSerialize` |
| InMemory.DeserializeDoc | src/InMemoryDbInterface.ts:78-80 | EJSON and the walk, run in turn, compute `LocalDeserialize` |
| InMemory.PortableIsSettled | src/InMemoryDbInterface.ts:8-34 | a portable document has nothing for removeUndefinedValues to remove |
| InMemory.ObjectTripsFromFields | src/InMemoryDbInterface.ts:71-80 | an object whose fields each survive the codec survives it whole |
| InMemory.ObjectRoundTrip | src/InMemoryDbInterface.ts:36-80 | every portable object survives the local serialize and deserialize, and its encoded form holds bare-hex ids |
| InMemory.FieldRoundTrip | src/InMemoryDbInterface.ts:43-61 | every portable field survives; an `_id` is encoded as its bare hex |
| InMemory.ItemsTrip | src/InMemoryDbInterface.ts:47-53 | an array whose elements each survive survives as a field |
| InMemory.ItemRoundTrip | src/InMemoryDbInterface.ts:48-53 | every portable array element survives |
| InMemory.LocalRoundTrip | src/InMemoryDbInterface.ts:71-80 | `deserialize(serialize(d))` gives `d` back for every portable document, and the stored form has bare-hex ids at every depth |
| InMemory.StringIdIsLost | src/InMemoryDbInterface.ts:43-44 | a string `_id` is serialized as undefined |
| InMemory.EncodesIdObject | src/InMemoryDbInterface.ts:43-44 | `{_id: {$oid: h}}` encodes to `{_id: h}` |
| InMemory.NestedIdIsBareHex | src/InMemoryDbInterface.ts:59-60 | a nested `_id` is rewritten to bare hex too |
| InMemory.NestedStringIdIsLost | src/InMemoryDbInterface.ts:43-44 | a nested string `_id` is stored as undefined: `{a: {_id: "s"}}` becomes `{a: {_id: undefined}}` |
| InMemory.UndefinedIdIsDropped | src/InMemoryDbInterface.ts:78-80 | EJSON's text pass drops an undefined field: `{a: {_id: undefined}}` is read back as `{a: {}}` |
| InMemory.NestedStringIdIsDropped | src/InMemoryDbInterface.ts:71-80 | a document with a nested string `_id` is read back without it: `{a: {_id: "s"}}` comes back as `{a: {}}` |
| InMemory.IdQuerySerialization | src/InMemoryDbInterface.ts:141 | `{_id: id}` serializes to `{_id: hex}` with either setting of `removeUndefined` |
| InMemory.Created | src/InMemoryDbInterface.ts:121-127 | getCollection adds a missing collection empty, and changes no existing one |
| InMemory.Recreated | src/InMemoryDbInterface.ts:109-115 | every named collection becomes a fresh empty one, and the others are unchanged |
| InMemory.WithUid | src/InMemoryDbInterface.ts:136 | upsert gives a document with a falsy `_id` the fresh uid, and keeps every other field |
| InMemory.WithFreshId | src/InMemoryDbInterface.ts:133 | a falsy `_id` is replaced by a new ObjectId, and every other field is kept |
| InMemory.Put | src/InMemoryDbInterface.ts:136 | upsert files the document under its key; an existing key keeps its place and a new one goes last |
| InMemory.Selected | src/InMemoryDbInterface.ts:193-194 | `find(q).fetch()` yields only matching stored documents |
| InMemory.RemovedMatching | src/InMemoryDbInterface.ts:141 | `remove(q)` keeps exactly the documents `q` does not select |
| InMemory.DeserializeAll | src/InMemoryDbInterface.ts:196 | it succeeds exactly when every document deserializes, and then it holds each one in order |
| InMemory.AddResult | src/InMemoryDbInterface.ts:135-137 | addObject rejects when the document does not serialize; every rejection is a codec exception; a resolved document's `_id` is an ObjectId |
| InMemory.FindOneResult | src/InMemoryDbInterface.ts:172-186 | a query the codec rejects rejects the find; a found result is never the empty object |
| InMemory.FindManyResult | src/InMemoryDbInterface.ts:188-198 | a resolved result has exactly one document per selected document |
| InMemory.CountResult | src/InMemoryDbInterface.ts:200-211 | the count rejects only when the query does not serialize, and it never exceeds the collection size |
| InMemory.Replaced | src/InMemoryDbInterface.ts:136 | the named collection is replaced, and every other one is kept |
| InMemory.AfterAdd | src/InMemoryDbInterface.ts:129-138 | addObject touches only its own collection |
| InMemory.AfterDelete | src/InMemoryDbInterface.ts:140-142 | deleteObjectById touches only its own collection |
| InMemory.AfterUpdate | src/InMemoryDbInterface.ts:144-163 | updateObjectById touches only its own collection, and a failure changes nothing but creating it |
| InMemory.InMemoryDbInterface.constructor | src/InMemoryDbInterface.ts:92-94 | a new backend has no collections |
| InMemory.InMemoryDbInterface.Init | src/InMemoryDbInterface.ts:96-119 | collections become `Recreated`, and the promise resolves exactly when the id list is non-empty |
| InMemory.InMemoryDbInterface.GetCollection | src/InMemoryDbInterface.ts:121-127 | collections become `Created`, and the result is the named collection |
| InMemory.InMemoryDbInterface.AddObject | src/InMemoryDbInterface.ts:129-138 | the object's fields become `WithFreshId`; the collections and the result are `AfterAdd` and `AddResult` of those fields |
| InMemory.InMemoryDbInterface.Upsert | src/InMemoryDbInterface.ts:135-137 | `upsert(serialize(doc)).then(deserialize)`: the collections and the result are `AfterAdd` and `AddResult` |
| InMemory.InMemoryDbInterface.DeleteObjectById | src/InMemoryDbInterface.ts:140-142 | collections become `AfterDelete` |
| InMemory.InMemoryDbInterface.UpdateObjectById | src/InMemoryDbInterface.ts:144-163 | collections and outcome are `AfterUpdate` |
| InMemory.InMemoryDbInterface.FindObject | src/InMemoryDbInterface.ts:172-186 | the result is `FindOneResult` on the (possibly just created) collection |
| InMemory.InMemoryDbInterface.FindObjectById | src/InMemoryDbInterface.ts:165-170 | it is `findObject(c, {_id: id})` |
| InMemory.InMemoryDbInterface.FindObjects | src/InMemoryDbInterface.ts:188-198 | the result is `FindManyResult` |
| InMemory.InMemoryDbInterface.CountObjects | src/InMemoryDbInterface.ts:200-211 | the result is `CountResult` |
| InMemory.DeserializeEach | src/InMemoryDbInterface.ts:196 | the `.map(deserialize)` loop computes exactly `DeserializeAll` |
| InMemory.MatchingOnlyKey | src/InMemoryDbInterface.ts:150 | when only the document under one key can match, the selection is that document or nothing |
| InMemory.SelectedById | src/InMemoryDbInterface.ts:150 | the id query selects the document filed under that id, if its `_id` is that id, and nothing else |
| InMemory.FindStoredById | src/InMemoryDbInterface.ts:165-186 | a document filed under its id is what finding that id resolves with, once deserialized |
| InMemory.AddStoresUnderId | src/InMemoryDbInterface.ts:129-138 | a portable document with an ObjectId is filed under its hex in serialized form, and the add resolves with the document unchanged |
| InMemory.AddThenFindById | src/InMemoryDbInterface.ts:129-186 | after adding a portable document, the add and a find by its id both give the document back |
| InMemory.FindMissingIsUndefined | src/InMemoryDbInterface.ts:179-185 | finding an id gives undefined whenever no document carrying that `_id` is filed under it |
| InMemory.DeleteThenFindMissing | src/InMemoryDbInterface.ts:140-186 | after a delete by id, finding that id gives undefined |
| InMemory.UpdateMissingIsNotFound | src/InMemoryDbInterface.ts:152-156 | updating an id that is not stored rejects with not-found and changes no document |
| InMemory.UpdateStoresMerged | src/InMemoryDbInterface.ts:158-160 | an update files the serialized `{...existing, ...newValues, _id: id}` under the same id and in the same position |
| InMemory.UpdateThenFindById | src/InMemoryDbInterface.ts:144-186 | after an update, finding the id gives `{...existing, ...newValues, _id: id}`, and the document keeps its position |
| InMemory.CountIsFindObjectsLength | src/InMemoryDbInterface.ts:188-211 | whenever findObjects resolves, countObjects with the same query resolves with its length |
| InMemory.AddWithStringIdIsRejected | src/InMemoryDbInterface.ts:133-137 | a non-empty string `_id` is lost and replaced by minimongo's uid; the add then rejects, although the document was stored |

## Left out

- Asynchrony: every promise is modelled as settling in program order. This covers:
  - the un-awaited `fallbackDb.init`;
  - the un-awaited upsert in the in-memory `updateObjectById`;
  - the `Promise.all` fan-out of the cached `findObjects`, which is sequential here.

  Races between overlapping calls are not modelled.
- `global.cache` is one process-wide object in the source. Here it is the field `entries`
  of each `CachedDbInterface`, so sharing one cache between instances is not modelled.
- NodeCache's options and time-based expiry are not modelled. The cache is a plain map
  with get, set and delete.
- `JSON.stringify` is the abstract parameter `stringify`. Field order and key
  canonicalisation are not modelled, and nothing is claimed about them.
  - Caching.CachedDbInterface.Valid assumes one property of it,
    Caching.StringifiesObjects: the text of every query object ends in `}`, as
    `JSON.stringify` of a plain object does. Caching.QueryKeysAreNotIdKeys and the coherence
    lemmas rest on it; a replacer that breaks it is not modelled.
- Objects are maps, so the field order of documents is not represented.
  - `Object.keys` listing integer-like keys first is not modelled. Key order is
    insertion order for the `localStorage` stand-in and the minimongo collections.
- Numbers are integers, and EJSON types other than ObjectId (dates, longs, decimals,
  binary) are not modelled.
- Ejson.Revive models only bson's `$oid` codec. bson rewrites objects keyed by its other
  `$`-prefixed codec names (`$date`, `$numberInt`, ...) and throws on field names holding a
  NUL character; here those pass through unchanged. Ejson.RoundTrip, Ejson.DeserializePlain,
  Utils.SerializeRoundTrip, LocalStorage.SetThenGet, LocalStorage.SetThenGetExact and
  InMemory.LocalRoundTrip therefore exclude every `$`-prefixed, `_bsontype` or NUL-holding
  field name (Ejson.NoReservedKeys, Utils.Portable, InMemory.LocalPortable).
- Ejson.Serialize never throws and copies every plain object field by field. bson's
  `EJSON.serialize` first reads a plain object's `_bsontype`: when it is set, it throws
  (a version error, or a non-string or unknown type name) or converts the object as the
  named bson type. Those objects are excluded from every round-trip lemma through
  Ejson.IsReservedKey, but Ejson.Serialize itself returns a value for them.
- Utils.Serialize: inherits that gap. For an object holding a set `_bsontype` at any depth
  the source throws, so `LocalStorageMock.setItem` throws too; the model returns a value.
- InMemory.LocalSerialize: inherits that gap. For such an object the source's local
  serialize throws, and so does `addObject`; the model throws (`CodecThrew`)
  only in the `_id` cases.
- For bson's ObjectId:
  - Its 12-byte-buffer and numeric constructor inputs are treated as invalid.
  - `ObjectId.isValid` is modelled on 24-digit hex strings and ObjectId instances only.
  - Spreading an ObjectId instance gives `{}`, and its own properties are not modelled.
- ObjectId generation and minimongo's `createUid` are parameters. Their randomness and
  their freshness are not modelled.
- minimongo's selector language is not modelled; it is the abstract `matches`. By-id
  lemmas assume it selects `{_id: h}` by string equality.
  - The cloning minimongo does on upsert and find is not modelled. Values here have no
    identity. minimongo stores a JSON copy, so a nested `_id: undefined` (what
    InMemory.NestedStringIdIsLost produces) is absent from its store, while InMemory.Put
    and InMemory.AfterAdd store `Undef`. Only the abstract `matches` could tell the two
    apart; what `findObject` returns is the same, since deserialize drops the field.
- Keys that name `Object.prototype` members are not modelled. The source keeps its maps in
  plain `{}` objects, so `getItem("constructor")` reads an inherited function and throws in
  `JSON.parse`, `setItem("__proto__", v)` stores nothing, and `getCollection("constructor")`
  returns `Object`, whose missing `upsert` then throws. The model treats these keys like any
  other (LocalStorage.Item, LocalStorage.Stored, InMemory.Created).
- `LocalStorageMock` string texts: the store holds the serialized document that
  `JSON.stringify` would print. The JSON text itself and `JSON.parse` are not modelled.
- InMemory.InMemoryDbInterface.UpdateObjectById: the `deserialize(returnValue)` of the
  un-awaited upsert promise is not modelled. Its outcome carries no value.
- InMemory.FindOneResult: which exception the local codec throws is not kept, only
  that it throws (`CodecThrew`).
- `CachedDbInterface` and `InMemoryDbInterface` declare `implements DbInterface`. They do
  not inherit `addOrUpdateObject`, so it is modelled once, on the reference backend
  `DbInterface.MapStore`.
- `MongoDbInterface` and `LocalStorageDbInterface` are driver wrappers over the network
  and browser storage. They are not part of this model.
- The `for…in` loops visit keys in an arbitrary order here. When one loop call throws,
  the model asserts only that the whole call throws.
