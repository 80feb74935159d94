/**
 * The storage contract every backend of mongo-anywhere offers
 * (src/DbInterface.ts), given a reference meaning over plain maps, and the
 * composite upsert `addOrUpdateObject` built from its primitives.
 */
module DbInterface {
  import opened Wrappers
  import opened JsonValue
  import Utils
  import opened Sequences

  /** A collection: its documents by id, and the ids in the order the documents were added. */
  datatype Collection = Collection(order: seq<ObjectId>, docs: map<ObjectId, Doc>)

  /** All collections, by name. */
  type Store = map<string, Collection>

  /** A query: a filter document and the matcher that decides which documents it selects. */
  type Matcher = (Doc, Doc) -> bool

  /** Every id listed once, the list and the documents agree, and each document carries its own id. */
  predicate CollectionValid(col: Collection) {
    && Distinct(col.order)
    && col.docs.Keys == (set id | id in col.order)
    && (forall id | id in col.docs :: "_id" in col.docs[id] && col.docs[id]["_id"] == Oid(id))
  }

  predicate StoreValid(s: Store) {
    forall c | c in s :: CollectionValid(s[c])
  }

  /** A document whose `_id` is an ObjectId. */
  predicate HasObjectId(d: Doc) {
    "_id" in d && d["_id"].Oid?
  }

  function IdOf(d: Doc): ObjectId
    requires HasObjectId(d)
  {
    d["_id"].id
  }

  /** A collection a backend has not seen yet reads as empty. */
  function Col(s: Store, c: string): (col: Collection)
    ensures StoreValid(s) ==> CollectionValid(col)
    ensures c !in s ==> col == Collection([], map[])
  {
    if c in s then s[c] else Collection([], map[])
  }

  /** The document stored under `id` in collection `c`, if any. */
  function Lookup(s: Store, c: string, id: ObjectId): (r: Option<Doc>)
    ensures r.Some? <==> id in Col(s, c).docs
    ensures r.Some? ==> r.value == Col(s, c).docs[id]
  {
    if id in Col(s, c).docs then Some(Col(s, c).docs[id]) else None
  }

  /** The documents under `order` that the query selects, in order. */
  function MatchingFrom<K>(order: seq<K>, docs: map<K, Doc>, query: Doc, matches: Matcher): (r: seq<Doc>)
    requires forall id | id in order :: id in docs
    ensures |r| <= |order|
    ensures forall d | d in r :: matches(query, d) && d in docs.Values
    ensures forall i | 0 <= i < |order| && matches(query, docs[order[i]]) :: docs[order[i]] in r
  {
    if order == [] then []
    else
      var rest := MatchingFrom(order[1..], docs, query, matches);
      assert forall i | 1 <= i < |order| :: order[i] == order[1..][i - 1];
      if matches(query, docs[order[0]]) then [docs[order[0]]] + rest else rest
  }

  /** `findObjects(c, query)`: every document of `c` the query selects, in insertion order. */
  function Matching(s: Store, c: string, query: Doc, matches: Matcher): (r: seq<Doc>)
    requires StoreValid(s)
    ensures |r| <= |Col(s, c).order|
    ensures forall d | d in r :: matches(query, d) && HasObjectId(d) && Lookup(s, c, IdOf(d)) == Some(d)
    ensures forall id | id in Col(s, c).docs && matches(query, Col(s, c).docs[id]) :: Col(s, c).docs[id] in r
  {
    var col := Col(s, c);
    var r := MatchingFrom(col.order, col.docs, query, matches);
    forall d | d in r
      ensures HasObjectId(d) && Lookup(s, c, IdOf(d)) == Some(d)
    {
      var id :| id in col.docs && col.docs[id] == d;
    }
    forall id | id in col.docs && matches(query, col.docs[id])
      ensures col.docs[id] in r
    {
      var i :| 0 <= i < |col.order| && col.order[i] == id;
    }
    r
  }

  /** `findObject(c, query)`: the first document the query selects. */
  function FirstMatch(s: Store, c: string, query: Doc, matches: Matcher): (r: Option<Doc>)
    requires StoreValid(s)
    ensures r.Some? <==> |Matching(s, c, query, matches)| > 0
    ensures r.Some? ==> r.value == Matching(s, c, query, matches)[0] && matches(query, r.value)
  {
    var all := Matching(s, c, query, matches);
    if |all| == 0 then None else Some(all[0])
  }

  /** `init(ids)`: every named collection exists; existing ones are kept. */
  function Initialized(s: Store, ids: seq<string>): (r: Store)
    requires StoreValid(s)
    ensures StoreValid(r)
    ensures forall c | c in ids :: c in r
    ensures forall c, id :: Lookup(r, c, id) == Lookup(s, c, id)
  {
    map c | c in s.Keys + (set x | x in ids) :: Col(s, c)
  }

  /** Appending a document under a new id keeps a collection valid. */
  lemma Appended(col: Collection, doc: Doc, id: ObjectId)
    requires CollectionValid(col) && "_id" in doc && doc["_id"] == Oid(id) && id !in col.docs
    ensures CollectionValid(Collection(col.order + [id], col.docs[id := doc]))
  {
    AppendKeepsDistinct(col.order, id);
  }

  /** The store after adding `doc` to `c` under the new id `id`. */
  function Inserted(s: Store, c: string, doc: Doc, id: ObjectId): (r: Store)
    requires StoreValid(s) && "_id" in doc && doc["_id"] == Oid(id) && Lookup(s, c, id).None?
    ensures StoreValid(r)
    ensures Lookup(r, c, id) == Some(doc)
    ensures forall c2, id2 | c2 != c || id2 != id :: Lookup(r, c2, id2) == Lookup(s, c2, id2)
    ensures |Col(r, c).docs| == |Col(s, c).docs| + 1
    ensures Col(r, c).order == Col(s, c).order + [id]
  {
    var col := Col(s, c);
    Appended(col, doc, id);
    s[c := Collection(col.order + [id], col.docs[id := doc])]
  }

  /** The store after removing the document with id `id` from `c` (nothing, if there is none). */
  function Removed(s: Store, c: string, id: ObjectId): (r: Store)
    requires StoreValid(s)
    ensures StoreValid(r)
    ensures Lookup(r, c, id).None?
    ensures forall c2, id2 | c2 != c || id2 != id :: Lookup(r, c2, id2) == Lookup(s, c2, id2)
  {
    if c !in s then s
    else
      WithoutKeepsDistinct(s[c].order, id);
      s[c := Collection(Without(s[c].order, id), s[c].docs - {id})]
  }

  /** The document `updateObjectById` leaves: the stored one overlaid by `newValues`, keeping its id. */
  function MergedDoc(existing: Doc, newValues: Doc, id: ObjectId): (d: Doc)
    ensures "_id" in d && d["_id"] == Oid(id)
    ensures d.Keys == existing.Keys + newValues.Keys + {"_id"}
    ensures forall k | k in d && k != "_id" :: d[k] == if k in newValues then newValues[k] else existing[k]
  {
    (existing + newValues)["_id" := Oid(id)]
  }

  /** The store after updating the document with id `id`, which must exist. */
  function Updated(s: Store, c: string, id: ObjectId, newValues: Doc): (r: Store)
    requires StoreValid(s) && Lookup(s, c, id).Some?
    ensures StoreValid(r)
    ensures Lookup(r, c, id) == Some(MergedDoc(Lookup(s, c, id).value, newValues, id))
    ensures forall c2, id2 | c2 != c || id2 != id :: Lookup(r, c2, id2) == Lookup(s, c2, id2)
    ensures Col(r, c).order == Col(s, c).order
  {
    var col := s[c];
    s[c := Collection(col.order, col.docs[id := MergedDoc(col.docs[id], newValues, id)])]
  }

  /** What a backend was asked to do, in the order asked: the record a test spy keeps. */
  datatype Call =
    | InitCall(collections: seq<string>)
    | AddCall(collection: string, doc: Doc)
    | DeleteCall(collection: string, id: ObjectId)
    | UpdateCall(collection: string, id: ObjectId, newValues: Doc)
    | FindByIdCall(collection: string, id: ObjectId)
    | FindOneCall(collection: string, query: Doc)
    | FindManyCall(collection: string, query: Doc)
    | CountCall(collection: string, query: Doc)

  /** The `_id` types the source allows a new document to carry: absent, a string or an ObjectId. */
  predicate HasAllowedId(d: Doc) {
    var id := Field(d, "_id");
    IsNullish(id) || id.Str? || id.Oid?
  }

  /**
   * A backend over an in-memory store. A freshly generated ObjectId is given
   * to it as a parameter wherever the source lets bson invent one.
   */
  class MapStore {
    var collections: Store
    ghost var calls: seq<Call>
    const matches: Matcher

    ghost predicate Valid()
      reads this
    {
      StoreValid(collections)
    }

    constructor (matches: Matcher)
      ensures Valid() && collections == map[] && calls == [] && this.matches == matches
    {
      collections := map[];
      calls := [];
      this.matches := matches;
    }

    method Init(ids: seq<string>)
      requires Valid()
      modifies this
      ensures Valid()
      ensures collections == Initialized(old(collections), ids)
      ensures calls == old(calls) + [InitCall(ids)]
    {
      collections := Initialized(collections, ids);
      calls := calls + [InitCall(ids)];
    }

    /** Gives the object an id (changing it in place), then stores it; an id already taken is refused. */
    method AddObject(c: string, obj: JsObject, freshId: ObjectId) returns (r: Result<Doc, Error>)
      requires Valid() && HasAllowedId(obj.fields)
      modifies this, obj
      ensures Valid()
      ensures calls == old(calls) + [AddCall(c, old(obj.fields))]
      ensures match Utils.WithEnsuredId(old(obj.fields), freshId)
        case Err(e) => r == Err(e) && collections == old(collections) && obj.fields == old(obj.fields)
        case Ok(d) =>
          && obj.fields == d
          && var id := d["_id"].id;
          if Lookup(old(collections), c, id).Some? then
            r == Err(DuplicateId) && collections == old(collections)
          else
            r == Ok(d) && collections == Inserted(old(collections), c, d, id)
    {
      calls := calls + [AddCall(c, obj.fields)];
      var outcome := Utils.EnsureObjHasId(obj, freshId);
      if outcome.Fail? {
        return Err(outcome.error);
      }
      var d := obj.fields;
      var id := d["_id"].id;
      if Lookup(collections, c, id).Some? {
        return Err(DuplicateId);
      }
      collections := Inserted(collections, c, d, id);
      r := Ok(d);
    }

    method DeleteObjectById(c: string, id: ObjectId)
      requires Valid()
      modifies this
      ensures Valid()
      ensures collections == Removed(old(collections), c, id)
      ensures calls == old(calls) + [DeleteCall(c, id)]
    {
      collections := Removed(collections, c, id);
      calls := calls + [DeleteCall(c, id)];
    }

    /** Overlays `newValues` on the stored document; rejects when there is none. */
    method UpdateObjectById(c: string, id: ObjectId, newValues: Doc) returns (r: Outcome<Error>)
      requires Valid()
      modifies this
      ensures Valid()
      ensures calls == old(calls) + [UpdateCall(c, id, newValues)]
      ensures Lookup(old(collections), c, id).None? ==> r == Fail(NotFound) && collections == old(collections)
      ensures Lookup(old(collections), c, id).Some? ==> r == Pass && collections == Updated(old(collections), c, id, newValues)
    {
      calls := calls + [UpdateCall(c, id, newValues)];
      if Lookup(collections, c, id).None? {
        return Fail(NotFound);
      }
      collections := Updated(collections, c, id, newValues);
      r := Pass;
    }

    method FindObjectById(c: string, id: ObjectId) returns (r: Option<Doc>)
      requires Valid()
      modifies this
      ensures Valid() && collections == old(collections)
      ensures calls == old(calls) + [FindByIdCall(c, id)]
      ensures r == Lookup(collections, c, id)
    {
      calls := calls + [FindByIdCall(c, id)];
      r := Lookup(collections, c, id);
    }

    method FindObject(c: string, query: Doc) returns (r: Option<Doc>)
      requires Valid()
      modifies this
      ensures Valid() && collections == old(collections)
      ensures calls == old(calls) + [FindOneCall(c, query)]
      ensures r == FirstMatch(collections, c, query, matches)
    {
      calls := calls + [FindOneCall(c, query)];
      r := FirstMatch(collections, c, query, matches);
    }

    method FindObjects(c: string, query: Doc) returns (r: seq<Doc>)
      requires Valid()
      modifies this
      ensures Valid() && collections == old(collections)
      ensures calls == old(calls) + [FindManyCall(c, query)]
      ensures r == Matching(collections, c, query, matches)
    {
      calls := calls + [FindManyCall(c, query)];
      r := Matching(collections, c, query, matches);
    }

    method CountObjects(c: string, query: Doc) returns (n: nat)
      requires Valid()
      modifies this
      ensures Valid() && collections == old(collections)
      ensures calls == old(calls) + [CountCall(c, query)]
      ensures n == |Matching(collections, c, query, matches)|
    {
      calls := calls + [CountCall(c, query)];
      n := |Matching(collections, c, query, matches)|;
    }

    /**
     * `addOrUpdateObject` of src/DbInterface.ts. With a set `_id` it looks the
     * document up by `new ObjectId(_id)`; if found it updates it with the whole
     * object and returns `{...existing, ...object}`, otherwise it adds it.
     * Without one it adds it.
     */
    method AddOrUpdateObject(c: string, obj: JsObject, freshId: ObjectId) returns (r: Result<Doc, Error>)
      requires Valid() && HasAllowedId(obj.fields)
      modifies this, obj
      ensures Valid()
      ensures var id := Field(old(obj.fields), "_id");
        && (!Truthy(id) ==> calls == old(calls) + [AddCall(c, old(obj.fields))])
        && (!Truthy(id) ==>
              var added := old(obj.fields)["_id" := Oid(freshId)];
              && obj.fields == added
              && (Lookup(old(collections), c, freshId).Some? ==> r == Err(DuplicateId) && collections == old(collections))
              && (Lookup(old(collections), c, freshId).None? ==> r == Ok(added) && collections == Inserted(old(collections), c, added, freshId)))
        && (Truthy(id) && ToObjectId(id).Err? ==>
              r == Err(InvalidObjectId) && obj.fields == old(obj.fields) && collections == old(collections) && calls == old(calls))
      ensures var id := Field(old(obj.fields), "_id");
        Truthy(id) && ToObjectId(id).Ok? ==>
          var oid := ToObjectId(id).value;
          match Lookup(old(collections), c, oid)
          case None =>
            var added := old(obj.fields)["_id" := Oid(oid)];
            calls == old(calls) + [FindByIdCall(c, oid), AddCall(c, old(obj.fields))]
            && r == Ok(added) && obj.fields == added
            && collections == Inserted(old(collections), c, added, oid)
          case Some(existing) =>
            calls == old(calls) + [FindByIdCall(c, oid), UpdateCall(c, oid, old(obj.fields))]
            && r == Ok(existing + old(obj.fields)) && obj.fields == old(obj.fields)
            && collections == Updated(old(collections), c, oid, old(obj.fields))
    {
      var id := Field(obj.fields, "_id");
      if Truthy(id) {
        var parsed := ToObjectId(id);
        if parsed.Err? {
          return Err(parsed.error);
        }
        var existing := FindObjectById(c, parsed.value);
        if existing.None? {
          ghost var added := obj.fields["_id" := Oid(parsed.value)];
          if id.Oid? {
            assert added == obj.fields;
          }
          assert Utils.WithEnsuredId(obj.fields, freshId) == Ok(added);
          r := AddObject(c, obj, freshId);
          return;
        }
        // The document was just found, so the update cannot reject.
        var outcome := UpdateObjectById(c, parsed.value, obj.fields);
        assert outcome == Pass;
        return Ok(existing.value + obj.fields);
      }
      assert Utils.WithEnsuredId(obj.fields, freshId) == Ok(obj.fields["_id" := Oid(freshId)]);
      r := AddObject(c, obj, freshId);
    }
  }

  /** Updating a document that exists keeps the number of documents and the insertion order. */
  lemma UpsertKeepsCount(s: Store, c: string, id: ObjectId, newValues: Doc)
    requires StoreValid(s) && Lookup(s, c, id).Some?
    ensures |Col(Updated(s, c, id, newValues), c).docs| == |Col(s, c).docs|
    ensures Col(Updated(s, c, id, newValues), c).order == Col(s, c).order
  {
    var r := Updated(s, c, id, newValues);
    assert Col(r, c).docs.Keys == Col(s, c).docs.Keys;
  }

  /**
   * When the object's `_id` is the ObjectId itself, what `addOrUpdateObject`
   * returns for an existing document is exactly what the update stores.
   */
  lemma UpsertReturnsStoredDoc(s: Store, c: string, id: ObjectId, obj: Doc)
    requires StoreValid(s) && Lookup(s, c, id).Some?
    requires "_id" in obj && obj["_id"] == Oid(id)
    ensures Lookup(Updated(s, c, id, obj), c, id) == Some(Lookup(s, c, id).value + obj)
  {
    var existing := Lookup(s, c, id).value;
    assert MergedDoc(existing, obj, id) == existing + obj;
  }

  /** A string `_id` yields a result whose `_id` is that string, while the store keeps the ObjectId. */
  lemma UpsertWithStringIdDiffers(s: Store, c: string, id: ObjectId, obj: Doc)
    requires StoreValid(s) && Lookup(s, c, id).Some?
    requires "_id" in obj && obj["_id"] == Str(id)
    ensures (Lookup(s, c, id).value + obj)["_id"] == Str(id)
    ensures Lookup(Updated(s, c, id, obj), c, id).value["_id"] == Oid(id)
  {
  }

  /** A document added through `addObject` can be read back by its id. */
  lemma AddedIsRetrievable(s: Store, c: string, d: Doc, id: ObjectId)
    requires StoreValid(s) && "_id" in d && d["_id"] == Oid(id) && Lookup(s, c, id).None?
    ensures Lookup(Inserted(s, c, d, id), c, id) == Some(d)
    ensures |Col(Inserted(s, c, d, id), c).docs| == |Col(s, c).docs| + 1
  {
  }
}
