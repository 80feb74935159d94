/**
 * The caching decorator of mongo-anywhere (src/CachedDbInterface.ts): a
 * string-keyed cache in front of a fallback backend. Point writes update or
 * drop the `findOne` entry of their id; reads are served from the cache on a
 * hit and fill it from the fallback on a miss.
 */
module Caching {
  import opened Wrappers
  import opened JsonValue
  import opened DbInterface
  import Utils

  datatype Operation = FindOne | FindMultiple | Count

  function Tag(op: Operation): string {
    match op
    case FindOne => "findOne"
    case FindMultiple => "findMultiple"
    case Count => "count"
  }

  /** A query as `getCacheKey` takes it: text used as is, or an object to be stringified. */
  datatype CacheQuery = Text(text: string) | Query(doc: Doc)

  /** `JSON.stringify` on query objects; its field-order sensitivity is left abstract. */
  type Stringify = Doc -> string

  predicate StartsWith(s: string, prefix: string) {
    |prefix| <= |s| && s[..|prefix|] == prefix
  }

  /** The operation whose namespace a key lies in, read off its prefix. */
  function KeyOperation(k: string): Option<Operation> {
    if StartsWith(k, "findOne.") then Some(FindOne)
    else if StartsWith(k, "findMultiple.") then Some(FindMultiple)
    else if StartsWith(k, "count.") then Some(Count)
    else None
  }

  /**
   * `getCacheKey(op, collection, query)`: the operation tag, the collection and
   * the query text joined by dots. Every key lies in its operation's namespace,
   * so keys of different operations never coincide.
   */
  function GetCacheKey(op: Operation, collection: string, query: CacheQuery, stringify: Stringify): (k: string)
    ensures KeyOperation(k) == Some(op)
    ensures StartsWith(k, Tag(op) + "." + collection + ".")
  {
    var text := match query case Text(t) => t case Query(q) => stringify(q);
    var prefix := Tag(op) + "." + collection + ".";
    var k := prefix + text;
    assert k[..|prefix|] == prefix;
    assert k[..|Tag(op)| + 1] == Tag(op) + ".";
    assert k[0] == Tag(op)[0] && k[4] == Tag(op)[4];
    k
  }

  /** The `findOne` key of a document id: `getCacheKey("findOne", c, id.toString())`. */
  function IdKey(c: string, id: ObjectId, stringify: Stringify): (k: string)
    ensures KeyOperation(k) == Some(FindOne)
    ensures k == "findOne." + c + "." + id
  {
    GetCacheKey(FindOne, c, Text(id), stringify)
  }

  lemma OperationsDoNotCollide(op1: Operation, c1: string, q1: CacheQuery, op2: Operation, c2: string, q2: CacheQuery, stringify: Stringify)
    requires op1 != op2
    ensures GetCacheKey(op1, c1, q1, stringify) != GetCacheKey(op2, c2, q2, stringify)
  {
  }

  /** Id keys name their collection and id: no two (collection, id) pairs share one. */
  lemma IdKeysInjective(c1: string, id1: ObjectId, c2: string, id2: ObjectId, stringify: Stringify)
    requires IdKey(c1, id1, stringify) == IdKey(c2, id2, stringify)
    ensures c1 == c2 && id1 == id2
  {
    var k1, k2 := "findOne." + c1 + "." + id1, "findOne." + c2 + "." + id2;
    assert k1 == k2;
    assert |k1| == 9 + |c1| + 24 && |k2| == 9 + |c2| + 24;
    assert |c1| == |c2|;
    assert k1[8..8 + |c1|] == c1 && k2[8..8 + |c2|] == c2;
    assert k1[9 + |c1|..] == id1 && k2[9 + |c2|..] == id2;
  }

  /** Text queries are not told apart from collection names: a dot in a collection name lets two keys meet. */
  lemma TextKeysCanCollide(stringify: Stringify)
    ensures GetCacheKey(FindOne, "a.b", Text("c"), stringify) == GetCacheKey(FindOne, "a", Text("b.c"), stringify)
  {
  }

  /** A query whose JSON text ends in a brace never shares a key with a document id. */
  lemma QueryKeysAreNotIdKeys(c: string, q: Doc, stringify: Stringify)
    requires |stringify(q)| > 0 && stringify(q)[|stringify(q)| - 1] == '}'
    ensures forall c2, id :: GetCacheKey(FindOne, c, Query(q), stringify) != IdKey(c2, id, stringify)
  {
    var k := GetCacheKey(FindOne, c, Query(q), stringify);
    assert k[|k| - 1] == '}';
    forall c2, id
      ensures k != IdKey(c2, id, stringify)
    {
      var k2 := IdKey(c2, id, stringify);
      assert k2[|k2| - 1] == id[23];
    }
  }

  /** What the cache holds: a document, the id list of a query, or a count. */
  datatype CacheValue = CachedDoc(doc: Doc) | CachedIds(ids: seq<ObjectId>) | CachedCount(n: int)

  type Cache = map<string, CacheValue>

  /** `if (cached)`: every cached object or array is truthy; a cached count is truthy unless it is 0. */
  predicate IsHit(v: CacheValue): (b: bool)
    ensures v.CachedDoc? || v.CachedIds? ==> b
    ensures v.CachedCount? ==> (b <==> v.n != 0)
  {
    !(v.CachedCount? && v.n == 0)
  }

  /** Each namespace holds its own kind of value. */
  predicate WellTyped(entries: Cache) {
    forall k | k in entries ::
      && (KeyOperation(k) == Some(FindOne) ==> entries[k].CachedDoc?)
      && (KeyOperation(k) == Some(FindMultiple) ==> entries[k].CachedIds?)
      && (KeyOperation(k) == Some(Count) ==> entries[k].CachedCount?)
  }

  /** The document a `findObjectById` would see: the cached one on a hit, the backend's otherwise. */
  function Resolve(entries: Cache, s: Store, c: string, id: ObjectId, stringify: Stringify): (r: Option<Doc>)
    requires WellTyped(entries)
    ensures IdKey(c, id, stringify) in entries ==> r == Some(entries[IdKey(c, id, stringify)].doc)
    ensures IdKey(c, id, stringify) !in entries ==> r == Lookup(s, c, id)
  {
    var key := IdKey(c, id, stringify);
    if key in entries && IsHit(entries[key]) then Some(entries[key].doc) else Lookup(s, c, id)
  }

  /** The `forEach` of `findObjects`: each document cached under its id, later ones written last. */
  function CacheEach(entries: Cache, c: string, docs: seq<Doc>, stringify: Stringify): (r: Cache)
    requires forall d | d in docs :: HasObjectId(d)
    ensures r.Keys == entries.Keys + (set d | d in docs :: IdKey(c, IdOf(d), stringify))
  {
    if docs == [] then entries
    else
      var last := docs[|docs| - 1];
      assert forall d | d in docs[..|docs| - 1] :: d in docs;
      CacheEach(entries, c, docs[..|docs| - 1], stringify)[IdKey(c, IdOf(last), stringify) := CachedDoc(last)]
  }

  /**
   * The cache after `findObjectById` of each id in turn, with the backend
   * left as it is: a miss that finds a document caches it under the id's key.
   */
  function CacheMisses(entries: Cache, s: Store, c: string, ids: seq<ObjectId>, stringify: Stringify): Cache {
    if ids == [] then entries
    else
      var before := CacheMisses(entries, s, c, ids[..|ids| - 1], stringify);
      var id := ids[|ids| - 1];
      var key := IdKey(c, id, stringify);
      if key !in before && Lookup(s, c, id).Some? then before[key := CachedDoc(Lookup(s, c, id).value)] else before
  }

  /** The first `|r|` lookups of `ids` done: their results, and the cache they leave. */
  ghost predicate Fetched(start: Cache, s: Store, c: string, ids: seq<ObjectId>, stringify: Stringify, entries: Cache, r: seq<Option<Doc>>)
    requires WellTyped(start)
  {
    && |r| <= |ids|
    && (forall i | 0 <= i < |r| :: r[i] == Resolve(start, s, c, ids[i], stringify))
    && entries == CacheMisses(start, s, c, ids[..|r|], stringify)
  }

  /** One more `findObjectById`: a hit leaves the cache, a miss caches what the backend found. */
  lemma FetchedStep(start: Cache, s: Store, c: string, ids: seq<ObjectId>, stringify: Stringify,
                    before: Cache, after: Cache, r: seq<Option<Doc>>, found: Option<Doc>)
    requires WellTyped(start) && WellTyped(before)
    requires Fetched(start, s, c, ids, stringify, before, r) && |r| < |ids|
    requires forall i :: Resolve(before, s, c, i, stringify) == Resolve(start, s, c, i, stringify)
    requires found == Resolve(before, s, c, ids[|r|], stringify)
    requires IdKey(c, ids[|r|], stringify) in before ==> after == before
    requires IdKey(c, ids[|r|], stringify) !in before ==>
      after == if found.Some? then before[IdKey(c, ids[|r|], stringify) := CachedDoc(found.value)] else before
    ensures Fetched(start, s, c, ids, stringify, after, r + [found])
  {
    assert ids[..|r| + 1][..|r|] == ids[..|r|];
    assert found == Resolve(start, s, c, ids[|r|], stringify);
    var grown := r + [found];
    assert forall i | 0 <= i < |r| :: grown[i] == r[i];
  }

  /**
   * Looking ids up keeps every entry there was, caches the backend's document
   * under the key of each listed id that was missing and is stored, and adds
   * no other key.
   */
  lemma {:induction false} CacheMissesAdds(entries: Cache, s: Store, c: string, ids: seq<ObjectId>, stringify: Stringify)
    ensures var r := CacheMisses(entries, s, c, ids, stringify);
      && (forall k | k in entries :: k in r && r[k] == entries[k])
      && (forall i | 0 <= i < |ids| && IdKey(c, ids[i], stringify) !in entries && Lookup(s, c, ids[i]).Some? ::
            IdKey(c, ids[i], stringify) in r && r[IdKey(c, ids[i], stringify)] == CachedDoc(Lookup(s, c, ids[i]).value))
      && (forall k | k in r && k !in entries ::
            exists i | 0 <= i < |ids| :: k == IdKey(c, ids[i], stringify) && Lookup(s, c, ids[i]).Some?)
  {
    if ids != [] {
      var init := ids[..|ids| - 1];
      var before := CacheMisses(entries, s, c, init, stringify);
      var r := CacheMisses(entries, s, c, ids, stringify);
      var last := ids[|ids| - 1];
      CacheMissesAdds(entries, s, c, init, stringify);
      forall i | 0 <= i < |ids| && IdKey(c, ids[i], stringify) !in entries && Lookup(s, c, ids[i]).Some?
        ensures IdKey(c, ids[i], stringify) in r && r[IdKey(c, ids[i], stringify)] == CachedDoc(Lookup(s, c, ids[i]).value)
      {
        var key := IdKey(c, ids[i], stringify);
        if i < |init| {
          assert init[i] == ids[i];
          if key == IdKey(c, last, stringify) {
            IdKeysInjective(c, ids[i], c, last, stringify);
          }
        } else if key in before {
          var j :| 0 <= j < |init| && key == IdKey(c, init[j], stringify) && Lookup(s, c, init[j]).Some?;
          IdKeysInjective(c, ids[i], c, init[j], stringify);
        }
      }
      forall k | k in r && k !in entries
        ensures exists i | 0 <= i < |ids| :: k == IdKey(c, ids[i], stringify) && Lookup(s, c, ids[i]).Some?
      {
        if k in before {
          var j :| 0 <= j < |init| && k == IdKey(c, init[j], stringify) && Lookup(s, c, init[j]).Some?;
          assert ids[j] == init[j];
        } else {
          assert k == IdKey(c, last, stringify);
        }
      }
    }
  }

  /** Caching documents changes their own id keys and no other key. */
  lemma {:induction false} CacheEachTouchesOnlyIdKeys(entries: Cache, c: string, docs: seq<Doc>, stringify: Stringify, k: string)
    requires forall d | d in docs :: HasObjectId(d)
    requires forall d | d in docs :: k != IdKey(c, IdOf(d), stringify)
    ensures k in CacheEach(entries, c, docs, stringify) <==> k in entries
    ensures k in entries ==> CacheEach(entries, c, docs, stringify)[k] == entries[k]
  {
    if docs != [] {
      var init := docs[..|docs| - 1];
      assert forall d | d in init :: d in docs;
      CacheEachTouchesOnlyIdKeys(entries, c, init, stringify, k);
    }
  }

  /** Caching documents keeps each namespace's kind of value. */
  lemma {:induction false} CacheEachWellTyped(entries: Cache, c: string, docs: seq<Doc>, stringify: Stringify)
    requires forall d | d in docs :: HasObjectId(d)
    requires WellTyped(entries)
    ensures WellTyped(CacheEach(entries, c, docs, stringify))
  {
    if docs != [] {
      var init := docs[..|docs| - 1];
      assert forall d | d in init :: d in docs;
      CacheEachWellTyped(entries, c, init, stringify);
    }
  }

  /**
   * The cache agrees with the backend: every document cached under an id key
   * is the document the backend stores under that id.
   */
  ghost predicate Coherent(entries: Cache, s: Store, stringify: Stringify) {
    forall c, id | IdKey(c, id, stringify) in entries && entries[IdKey(c, id, stringify)].CachedDoc? ::
      Lookup(s, c, id) == Some(entries[IdKey(c, id, stringify)].doc)
  }

  /** Under coherence, what a lookup sees is what the backend stores. */
  lemma CoherentResolveIsLookup(entries: Cache, s: Store, c: string, id: ObjectId, stringify: Stringify)
    requires WellTyped(entries) && Coherent(entries, s, stringify)
    ensures Resolve(entries, s, c, id, stringify) == Lookup(s, c, id)
  {
  }

  /** Setting a key that is no document's id key keeps coherence. */
  lemma CoherentAfterOtherKey(entries: Cache, s: Store, stringify: Stringify, k: string, v: CacheValue)
    requires Coherent(entries, s, stringify)
    requires forall c, id :: k != IdKey(c, id, stringify)
    ensures Coherent(entries[k := v], s, stringify)
  {
  }

  /** Caching a document under its id keeps coherence when the backend stores exactly that document. */
  lemma CoherentAfterCachingDoc(entries: Cache, s: Store, stringify: Stringify, c: string, d: Doc)
    requires Coherent(entries, s, stringify)
    requires HasObjectId(d) && Lookup(s, c, IdOf(d)) == Some(d)
    ensures Coherent(entries[IdKey(c, IdOf(d), stringify) := CachedDoc(d)], s, stringify)
  {
    var e := entries[IdKey(c, IdOf(d), stringify) := CachedDoc(d)];
    forall c2, id2 | IdKey(c2, id2, stringify) in e && e[IdKey(c2, id2, stringify)].CachedDoc?
      ensures Lookup(s, c2, id2) == Some(e[IdKey(c2, id2, stringify)].doc)
    {
      if IdKey(c2, id2, stringify) == IdKey(c, IdOf(d), stringify) {
        IdKeysInjective(c2, id2, c, IdOf(d), stringify);
      }
    }
  }

  /** The documents a backend returned for a query, all cached, keep coherence. */
  lemma {:induction false} CoherentAfterCacheEach(entries: Cache, s: Store, stringify: Stringify, c: string, docs: seq<Doc>)
    requires Coherent(entries, s, stringify)
    requires forall d | d in docs :: HasObjectId(d) && Lookup(s, c, IdOf(d)) == Some(d)
    ensures Coherent(CacheEach(entries, c, docs, stringify), s, stringify)
  {
    if docs != [] {
      var init := docs[..|docs| - 1];
      assert forall d | d in init :: d in docs;
      CoherentAfterCacheEach(entries, s, stringify, c, init);
      CoherentAfterCachingDoc(CacheEach(entries, c, init, stringify), s, stringify, c, docs[|docs| - 1]);
    }
  }

  /** After the `forEach`, each returned document is what its id key holds. */
  lemma EachDocIsCached(entries: Cache, s: Store, stringify: Stringify, c: string, docs: seq<Doc>)
    requires Coherent(entries, s, stringify)
    requires forall d | d in docs :: HasObjectId(d) && Lookup(s, c, IdOf(d)) == Some(d)
    ensures forall d | d in docs ::
      IdKey(c, IdOf(d), stringify) in CacheEach(entries, c, docs, stringify)
      && CacheEach(entries, c, docs, stringify)[IdKey(c, IdOf(d), stringify)] == CachedDoc(d)
  {
    var r := CacheEach(entries, c, docs, stringify);
    CoherentAfterCacheEach(entries, s, stringify, c, docs);
    forall d | d in docs
      ensures IdKey(c, IdOf(d), stringify) in r && r[IdKey(c, IdOf(d), stringify)] == CachedDoc(d)
    {
      CachedUnderIdKey(entries, c, docs, stringify, d);
    }
  }

  /** After caching a list, the id key of each listed document holds a document with that id. */
  lemma {:induction false} CachedUnderIdKey(entries: Cache, c: string, docs: seq<Doc>, stringify: Stringify, d: Doc)
    requires forall x | x in docs :: HasObjectId(x)
    requires d in docs
    ensures IdKey(c, IdOf(d), stringify) in CacheEach(entries, c, docs, stringify)
    ensures CacheEach(entries, c, docs, stringify)[IdKey(c, IdOf(d), stringify)].CachedDoc?
  {
    var last := docs[|docs| - 1];
    var init := docs[..|docs| - 1];
    assert forall x | x in init :: x in docs;
    if d != last && IdKey(c, IdOf(d), stringify) != IdKey(c, IdOf(last), stringify) {
      assert d in init;
      CachedUnderIdKey(entries, c, init, stringify, d);
    }
  }

  /** Adding a new document and caching it under its id keeps coherence. */
  lemma CoherentAfterAdd(entries: Cache, s: Store, stringify: Stringify, c: string, d: Doc)
    requires Coherent(entries, s, stringify) && StoreValid(s)
    requires HasObjectId(d) && Lookup(s, c, IdOf(d)).None?
    ensures Coherent(entries[IdKey(c, IdOf(d), stringify) := CachedDoc(d)], Inserted(s, c, d, IdOf(d)), stringify)
  {
    var s2 := Inserted(s, c, d, IdOf(d));
    var e := entries[IdKey(c, IdOf(d), stringify) := CachedDoc(d)];
    forall c2, id2 | IdKey(c2, id2, stringify) in e && e[IdKey(c2, id2, stringify)].CachedDoc?
      ensures Lookup(s2, c2, id2) == Some(e[IdKey(c2, id2, stringify)].doc)
    {
      if IdKey(c2, id2, stringify) == IdKey(c, IdOf(d), stringify) {
        IdKeysInjective(c2, id2, c, IdOf(d), stringify);
      }
    }
  }

  /**
   * `addObject` writes the cache before the backend: when the backend refuses
   * the document because its id is taken, the cache holds a document the
   * backend does not have.
   */
  lemma RefusedAddBreaksCoherence(entries: Cache, s: Store, stringify: Stringify, c: string, d: Doc)
    requires HasObjectId(d) && Lookup(s, c, IdOf(d)).Some? && Lookup(s, c, IdOf(d)).value != d
    ensures !Coherent(entries[IdKey(c, IdOf(d), stringify) := CachedDoc(d)], s, stringify)
  {
    var e := entries[IdKey(c, IdOf(d), stringify) := CachedDoc(d)];
    assert IdKey(c, IdOf(d), stringify) in e && e[IdKey(c, IdOf(d), stringify)].CachedDoc?;
  }

  /** Deleting a document and dropping its id key keeps coherence. */
  lemma CoherentAfterDelete(entries: Cache, s: Store, stringify: Stringify, c: string, id: ObjectId)
    requires Coherent(entries, s, stringify) && StoreValid(s)
    ensures Coherent(entries - {IdKey(c, id, stringify)}, Removed(s, c, id), stringify)
  {
    var s2 := Removed(s, c, id);
    var e := entries - {IdKey(c, id, stringify)};
    forall c2, id2 | IdKey(c2, id2, stringify) in e && e[IdKey(c2, id2, stringify)].CachedDoc?
      ensures Lookup(s2, c2, id2) == Some(e[IdKey(c2, id2, stringify)].doc)
    {
      if c2 == c && id2 == id {
        assert false;
      }
    }
  }

  /** `{...cached, ...newValues}`: the cached document overlaid by the new values. */
  function Overlay(cached: Doc, newValues: Doc): (d: Doc)
    ensures d.Keys == cached.Keys + newValues.Keys
    ensures forall k | k in d :: d[k] == if k in newValues then newValues[k] else cached[k]
  {
    cached + newValues
  }

  /** The cache after `updateObjectById`: a cached entry is overlaid, a missing one stays missing. */
  function AfterUpdate(entries: Cache, c: string, id: ObjectId, newValues: Doc, stringify: Stringify): (r: Cache)
    requires WellTyped(entries)
    ensures r.Keys == entries.Keys
    ensures forall k | k in entries && k != IdKey(c, id, stringify) :: r[k] == entries[k]
    ensures IdKey(c, id, stringify) in entries ==>
      r[IdKey(c, id, stringify)] == CachedDoc(Overlay(entries[IdKey(c, id, stringify)].doc, newValues))
    ensures WellTyped(r)
  {
    var key := IdKey(c, id, stringify);
    if key in entries && IsHit(entries[key]) then entries[key := CachedDoc(Overlay(entries[key].doc, newValues))]
    else entries
  }

  /** An update whose new values do not reassign `_id` keeps coherence. */
  lemma CoherentAfterUpdate(entries: Cache, s: Store, stringify: Stringify, c: string, id: ObjectId, newValues: Doc)
    requires Coherent(entries, s, stringify) && StoreValid(s) && WellTyped(entries)
    requires "_id" in newValues ==> newValues["_id"] == Oid(id)
    ensures Lookup(s, c, id).Some? ==> Coherent(AfterUpdate(entries, c, id, newValues, stringify), Updated(s, c, id, newValues), stringify)
    ensures Lookup(s, c, id).None? ==> AfterUpdate(entries, c, id, newValues, stringify) == entries
  {
    var key := IdKey(c, id, stringify);
    if Lookup(s, c, id).Some? {
      var s2 := Updated(s, c, id, newValues);
      var e := AfterUpdate(entries, c, id, newValues, stringify);
      forall c2, id2 | IdKey(c2, id2, stringify) in e && e[IdKey(c2, id2, stringify)].CachedDoc?
        ensures Lookup(s2, c2, id2) == Some(e[IdKey(c2, id2, stringify)].doc)
      {
        if IdKey(c2, id2, stringify) == key {
          IdKeysInjective(c2, id2, c, id, stringify);
          var existing := Lookup(s, c, id).value;
          assert entries[key].doc == existing;
          assert Overlay(existing, newValues) == MergedDoc(existing, newValues, id);
        } else {
          assert c2 != c || id2 != id;
          assert e[IdKey(c2, id2, stringify)] == entries[IdKey(c2, id2, stringify)];
        }
      }
    }
  }

  /** An update that names another `_id` leaves the cache with an id the backend did not store. */
  lemma UpdateOfIdBreaksCoherence(entries: Cache, s: Store, stringify: Stringify, c: string, id: ObjectId, other: ObjectId)
    requires WellTyped(entries) && StoreValid(s) && Lookup(s, c, id).Some? && other != id
    requires IdKey(c, id, stringify) in entries
    ensures !Coherent(AfterUpdate(entries, c, id, map["_id" := Oid(other)], stringify), Updated(s, c, id, map["_id" := Oid(other)]), stringify)
  {
    var key := IdKey(c, id, stringify);
    var e := AfterUpdate(entries, c, id, map["_id" := Oid(other)], stringify);
    assert e[key].doc["_id"] == Oid(other);
    assert Lookup(Updated(s, c, id, map["_id" := Oid(other)]), c, id).value["_id"] == Oid(id);
  }

  /** A change of the cache that every `findObjectById` in collection `c` is blind to. */
  ghost predicate Preserves(before: Cache, after: Cache, s: Store, c: string, stringify: Stringify)
    requires WellTyped(before) && WellTyped(after)
  {
    forall i :: Resolve(after, s, c, i, stringify) == Resolve(before, s, c, i, stringify)
  }

  predicate IsPrefix<T(==)>(a: seq<T>, b: seq<T>) {
    |a| <= |b| && b[..|a|] == a
  }

  /** The ids of documents that carry one. */
  function IdsOf(docs: seq<Doc>): (ids: seq<ObjectId>)
    requires forall d | d in docs :: HasObjectId(d)
    ensures |ids| == |docs| && forall i | 0 <= i < |docs| :: docs[i] in docs && ids[i] == IdOf(docs[i])
  {
    seq(|docs|, i requires 0 <= i < |docs| => IdOf(docs[i]))
  }

  /** A JSON.stringify whose every object text ends in a brace, as that of plain objects does. */
  ghost predicate StringifiesObjects(stringify: Stringify) {
    forall q :: |stringify(q)| > 0 && stringify(q)[|stringify(q)| - 1] == '}'
  }

  /**
   * `CachedDbInterface`. The process-wide `global.cache` is the field
   * `entries` (with `created` saying whether it exists); the fallback is a
   * map-backed backend whose call record plays the test spy.
   */
  class CachedDbInterface {
    const fallback: MapStore
    const stringify: Stringify
    var created: bool
    var entries: Cache

    ghost predicate Valid()
      reads this, fallback
    {
      fallback.Valid() && WellTyped(entries) && StringifiesObjects(stringify)
    }

    /** Whether the cache and the fallback agree on every document cached by id. */
    ghost predicate Agrees()
      reads this, fallback
    {
      Coherent(entries, fallback.collections, stringify)
    }

    constructor (fallback: MapStore, stringify: Stringify)
      requires fallback.Valid() && StringifiesObjects(stringify)
      ensures Valid() && !created && entries == map[]
      ensures this.fallback == fallback && this.stringify == stringify
    {
      this.fallback := fallback;
      this.stringify := stringify;
      created := false;
      entries := map[];
    }

    /** Starts the fallback (not awaited in the source) and creates the cache if there is none yet. */
    method Init(ids: seq<string>)
      requires Valid()
      modifies this, fallback
      ensures Valid() && created
      ensures entries == if old(created) then old(entries) else map[]
      ensures fallback.collections == Initialized(old(fallback.collections), ids)
      ensures fallback.calls == old(fallback.calls) + [InitCall(ids)]
      ensures old(Agrees()) || !old(created) ==> Agrees()
    {
      fallback.Init(ids);
      if !created {
        created := true;
        entries := map[];
      }
    }

    /** Gives the object an id, caches it under that id, then hands the same object to the fallback. */
    method AddObject(c: string, obj: JsObject, freshId: ObjectId) returns (r: Result<Doc, Error>)
      requires Valid() && created && HasAllowedId(obj.fields)
      modifies this, fallback, obj
      ensures Valid() && created
      ensures match Utils.WithEnsuredId(old(obj.fields), freshId)
        case Err(e) =>
          r == Err(e) && entries == old(entries) && obj.fields == old(obj.fields)
          && fallback.collections == old(fallback.collections) && fallback.calls == old(fallback.calls)
        case Ok(d) =>
          && obj.fields == d
          && entries == old(entries)[IdKey(c, IdOf(d), stringify) := CachedDoc(d)]
          && fallback.calls == old(fallback.calls) + [AddCall(c, d)]
          && if Lookup(old(fallback.collections), c, IdOf(d)).Some? then
               r == Err(DuplicateId) && fallback.collections == old(fallback.collections)
             else
               r == Ok(d) && fallback.collections == Inserted(old(fallback.collections), c, d, IdOf(d))
      ensures old(Agrees()) && Utils.WithEnsuredId(old(obj.fields), freshId).Ok? && r.Ok? ==> Agrees()
    {
      var outcome := Utils.EnsureObjHasId(obj, freshId);
      if outcome.Fail? {
        return Err(outcome.error);
      }
      var d := obj.fields;
      entries := entries[IdKey(c, IdOf(d), stringify) := CachedDoc(d)];
      ghost var before := fallback.collections;
      r := fallback.AddObject(c, obj, freshId);
      if r.Ok? && old(Agrees()) {
        CoherentAfterAdd(old(entries), before, stringify, c, d);
      }
    }

    /** Drops the id's `findOne` entry, then deletes through the fallback. */
    method DeleteObjectById(c: string, id: ObjectId)
      requires Valid() && created
      modifies this, fallback
      ensures Valid() && created
      ensures entries == old(entries) - {IdKey(c, id, stringify)}
      ensures fallback.collections == Removed(old(fallback.collections), c, id)
      ensures fallback.calls == old(fallback.calls) + [DeleteCall(c, id)]
      ensures old(Agrees()) ==> Agrees()
    {
      entries := entries - {IdKey(c, id, stringify)};
      fallback.DeleteObjectById(c, id);
      if old(Agrees()) {
        CoherentAfterDelete(old(entries), old(fallback.collections), stringify, c, id);
      }
    }

    /** Overlays the new values on a cached entry (creating none), then always updates through the fallback. */
    method UpdateObjectById(c: string, id: ObjectId, newValues: Doc) returns (r: Outcome<Error>)
      requires Valid() && created
      modifies this, fallback
      ensures Valid() && created
      ensures entries == AfterUpdate(old(entries), c, id, newValues, stringify)
      ensures fallback.calls == old(fallback.calls) + [UpdateCall(c, id, newValues)]
      ensures Lookup(old(fallback.collections), c, id).None? ==> r == Fail(NotFound) && fallback.collections == old(fallback.collections)
      ensures Lookup(old(fallback.collections), c, id).Some? ==> r == Pass && fallback.collections == Updated(old(fallback.collections), c, id, newValues)
      ensures old(Agrees()) && ("_id" in newValues ==> newValues["_id"] == Oid(id)) ==> Agrees()
    {
      var key := IdKey(c, id, stringify);
      if key in entries && IsHit(entries[key]) {
        var updated := Overlay(entries[key].doc, newValues);
        entries := entries[key := CachedDoc(updated)];
      }
      assert entries == AfterUpdate(old(entries), c, id, newValues, stringify);
      ghost var before := fallback.collections;
      r := fallback.UpdateObjectById(c, id, newValues);
      if old(Agrees()) && ("_id" in newValues ==> newValues["_id"] == Oid(id)) {
        CoherentAfterUpdate(old(entries), before, stringify, c, id, newValues);
      }
    }

    /** A hit returns the cached document without asking the fallback; a miss asks it and caches a found document. */
    method FindObjectById(c: string, id: ObjectId) returns (r: Option<Doc>)
      requires Valid() && created
      modifies this, fallback
      ensures Valid() && created
      ensures fallback.collections == old(fallback.collections)
      ensures r == Resolve(old(entries), fallback.collections, c, id, stringify)
      ensures IdKey(c, id, stringify) in old(entries) ==>
        entries == old(entries) && fallback.calls == old(fallback.calls)
      ensures IdKey(c, id, stringify) !in old(entries) ==>
        && fallback.calls == old(fallback.calls) + [FindByIdCall(c, id)]
        && entries == if r.Some? then old(entries)[IdKey(c, id, stringify) := CachedDoc(r.value)] else old(entries)
      ensures Preserves(old(entries), entries, fallback.collections, c, stringify)
      ensures old(Agrees()) ==> Agrees() && r == Lookup(fallback.collections, c, id)
    {
      var key := IdKey(c, id, stringify);
      if key in entries && IsHit(entries[key]) {
        r := Some(entries[key].doc);
      } else {
        r := fallback.FindObjectById(c, id);
        if r.Some? {
          entries := entries[key := CachedDoc(r.value)];
          forall i
            ensures Resolve(entries, fallback.collections, c, i, stringify) == Resolve(old(entries), fallback.collections, c, i, stringify)
          {
            if IdKey(c, i, stringify) == key {
              IdKeysInjective(c, i, c, id, stringify);
            }
          }
          if old(Agrees()) {
            CoherentAfterCachingDoc(old(entries), fallback.collections, stringify, c, r.value);
          }
        }
      }
      if old(Agrees()) {
        CoherentResolveIsLookup(old(entries), fallback.collections, c, id, stringify);
      }
    }

    /** Like `FindObjectById`, with the cache keyed by the stringified query. */
    method FindObject(c: string, query: Doc) returns (r: Option<Doc>)
      requires Valid() && created
      modifies this, fallback
      ensures Valid() && created
      ensures fallback.collections == old(fallback.collections)
      ensures var key := GetCacheKey(FindOne, c, Query(query), stringify);
        if key in old(entries) then
          r == Some(old(entries)[key].doc) && entries == old(entries) && fallback.calls == old(fallback.calls)
        else
          && r == FirstMatch(fallback.collections, c, query, fallback.matches)
          && fallback.calls == old(fallback.calls) + [FindOneCall(c, query)]
          && entries == if r.Some? then old(entries)[key := CachedDoc(r.value)] else old(entries)
      ensures old(Agrees()) ==> Agrees()
    {
      var key := GetCacheKey(FindOne, c, Query(query), stringify);
      if key in entries && IsHit(entries[key]) {
        r := Some(entries[key].doc);
      } else {
        r := fallback.FindObject(c, query);
        if r.Some? {
          entries := entries[key := CachedDoc(r.value)];
          if old(Agrees()) {
            QueryKeysAreNotIdKeys(c, query, stringify);
            CoherentAfterOtherKey(old(entries), fallback.collections, stringify, key, CachedDoc(r.value));
          }
        }
      }
    }

    /**
     * `findObjects`: a hit resolves each cached id through `findObjectById`, in
     * cached order, without asking the fallback's `findObjects`; a miss asks
     * it, caches the ids under the query and each document under its own id.
     */
    method FindObjects(c: string, query: Doc) returns (r: seq<Option<Doc>>)
      requires Valid() && created
      modifies this, fallback
      ensures Valid() && created
      ensures fallback.collections == old(fallback.collections)
      ensures var key := GetCacheKey(FindMultiple, c, Query(query), stringify);
        if key in old(entries) then
          var ids := old(entries)[key].ids;
          && |r| == |ids|
          && (forall i | 0 <= i < |ids| :: r[i] == Resolve(old(entries), fallback.collections, c, ids[i], stringify))
          && IsPrefix(old(fallback.calls), fallback.calls)
          && (forall j | |old(fallback.calls)| <= j < |fallback.calls| :: fallback.calls[j].FindByIdCall?)
          && entries == CacheMisses(old(entries), fallback.collections, c, ids, stringify)
        else
          var found := Matching(fallback.collections, c, query, fallback.matches);
          && r == seq(|found|, i requires 0 <= i < |found| => Some(found[i]))
          && fallback.calls == old(fallback.calls) + [FindManyCall(c, query)]
          && entries == CacheEach(old(entries)[key := CachedIds(IdsOf(found))], c, found, stringify)
      ensures old(Agrees()) ==> Agrees()
    {
      var key := GetCacheKey(FindMultiple, c, Query(query), stringify);
      if key in entries && IsHit(entries[key]) {
        r := FindEachById(c, entries[key].ids);
      } else {
        var found := fallback.FindObjects(c, query);
        entries := entries[key := CachedIds(IdsOf(found))];
        if old(Agrees()) {
          CoherentAfterOtherKey(old(entries), fallback.collections, stringify, key, CachedIds(IdsOf(found)));
        }
        CacheFound(c, found);
        r := seq(|found|, i requires 0 <= i < |found| => Some(found[i]));
      }
    }

    /** The `Promise.all` over `findObjectById` of the cached ids. */
    method FindEachById(c: string, ids: seq<ObjectId>) returns (r: seq<Option<Doc>>)
      requires Valid() && created
      modifies this, fallback
      ensures Valid() && created
      ensures fallback.collections == old(fallback.collections)
      ensures |r| == |ids|
      ensures forall i | 0 <= i < |ids| :: r[i] == Resolve(old(entries), fallback.collections, c, ids[i], stringify)
      ensures IsPrefix(old(fallback.calls), fallback.calls)
      ensures forall j | |old(fallback.calls)| <= j < |fallback.calls| :: fallback.calls[j].FindByIdCall?
      ensures entries == CacheMisses(old(entries), fallback.collections, c, ids, stringify)
      ensures old(Agrees()) ==> Agrees()
    {
      r := [];
      while |r| < |ids|
        invariant Valid() && created
        invariant fallback.collections == old(fallback.collections)
        invariant IsPrefix(old(fallback.calls), fallback.calls)
        invariant forall j | |old(fallback.calls)| <= j < |fallback.calls| :: fallback.calls[j].FindByIdCall?
        invariant Preserves(old(entries), entries, fallback.collections, c, stringify)
        invariant Fetched(old(entries), fallback.collections, c, ids, stringify, entries, r)
        invariant old(Agrees()) ==> Agrees()
        decreases |ids| - |r|
      {
        ghost var before := entries;
        var found := FindObjectById(c, ids[|r|]);
        FetchedStep(old(entries), fallback.collections, c, ids, stringify, before, entries, r, found);
        r := r + [found];
      }
      assert ids[..|r|] == ids;
    }

    /** The `forEach` of a miss: each found document cached under its own id. */
    method CacheFound(c: string, found: seq<Doc>)
      requires Valid() && created
      requires forall d | d in found :: HasObjectId(d) && Lookup(fallback.collections, c, IdOf(d)) == Some(d)
      modifies this
      ensures Valid() && created
      ensures entries == CacheEach(old(entries), c, found, stringify)
      ensures old(Agrees()) ==> Agrees()
    {
      ghost var start := entries;
      var n := 0;
      while n < |found|
        invariant 0 <= n <= |found| && created
        invariant entries == CacheEach(start, c, found[..n], stringify)
        decreases |found| - n
      {
        assert found[..n + 1][..n] == found[..n];
        entries := entries[IdKey(c, IdOf(found[n]), stringify) := CachedDoc(found[n])];
        n := n + 1;
      }
      assert found[..n] == found;
      CacheEachWellTyped(start, c, found, stringify);
      if old(Agrees()) {
        CoherentAfterCacheEach(start, fallback.collections, stringify, c, found);
      }
    }

    /** A truthy cached count is returned as is; a count from the fallback is cached only when it is not 0. */
    method CountObjects(c: string, query: Doc) returns (n: int)
      requires Valid() && created
      modifies this, fallback
      ensures Valid() && created
      ensures fallback.collections == old(fallback.collections)
      ensures var key := GetCacheKey(Count, c, Query(query), stringify);
        if key in old(entries) && IsHit(old(entries)[key]) then
          n == old(entries)[key].n && entries == old(entries) && fallback.calls == old(fallback.calls)
        else
          && n == |Matching(fallback.collections, c, query, fallback.matches)|
          && fallback.calls == old(fallback.calls) + [CountCall(c, query)]
          && entries == if n != 0 then old(entries)[key := CachedCount(n)] else old(entries)
      ensures old(Agrees()) ==> Agrees()
    {
      var key := GetCacheKey(Count, c, Query(query), stringify);
      if key in entries && IsHit(entries[key]) {
        n := entries[key].n;
      } else {
        n := fallback.CountObjects(c, query);
        if n != 0 {
          entries := entries[key := CachedCount(n)];
          if old(Agrees()) {
            CoherentAfterOtherKey(old(entries), fallback.collections, stringify, key, CachedCount(n));
          }
        }
      }
    }
  }
}
