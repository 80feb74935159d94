/**
 * The in-process stand-in for the browser's `localStorage`
 * (src/LocalStorageMock.ts): a string-keyed store whose values pass through
 * the codec of src/utils.ts and JSON text on the way in and out.
 */
module LocalStorage {
  import opened Wrappers
  import opened JsonValue
  import opened Sequences
  import Utils

  /**
   * The mock's private `store`. Each key's JSON text is represented by the
   * serialized document it encodes (JSON.parse gives that document back, as
   * serialized documents hold no undefined and no ObjectId); `order` is the
   * order `Object.keys` lists the keys in, which is insertion order.
   */
  datatype Entries = Entries(order: seq<string>, texts: map<string, Doc>)

  /** Every key listed once, and the list and the stored texts agree. */
  predicate EntriesValid(e: Entries) {
    Distinct(e.order) && e.texts.Keys == (set k | k in e.order)
  }

  /** `this.store[key] = text`: a new key goes to the end of the key order, an existing one keeps its place. */
  function Stored(e: Entries, key: string, text: Doc): (r: Entries)
    requires EntriesValid(e)
    ensures EntriesValid(r)
    ensures r.texts == e.texts[key := text]
    ensures key in e.texts ==> r.order == e.order
    ensures key !in e.texts ==> r.order == e.order + [key]
  {
    if key in e.texts then Entries(e.order, e.texts[key := text])
    else
      var grown := e.order + [key];
      assert key !in e.order;
      assert (set k | k in grown) == (set k | k in e.order) + {key};
      Entries(grown, e.texts[key := text])
  }

  /** `delete this.store[key]`: the key leaves both the texts and the key order; the other keys keep their order. */
  function Deleted(e: Entries, key: string): (r: Entries)
    requires EntriesValid(e)
    ensures EntriesValid(r)
    ensures r.texts == e.texts - {key}
    ensures key !in e.texts ==> r == e
  {
    WithoutKeepsDistinct(e.order, key);
    Entries(Without(e.order, key), e.texts - {key})
  }

  /**
   * `getItem(key)`: `None` is `undefined`, returned for a key that holds no
   * text (every stored text is non-empty, so truthy); otherwise the stored
   * document deserialized, which throws on a malformed ObjectId.
   */
  function Item(e: Entries, key: string): (r: Option<Result<Doc, Error>>)
    ensures r.None? <==> key !in e.texts
  {
    if key in e.texts then Some(Utils.Deserialize(e.texts[key])) else None
  }

  /** `Object.keys(this.store)[index]`: `None` is `undefined`, for an index outside the key list. */
  function KeyAt(e: Entries, index: int): (r: Option<string>)
    requires EntriesValid(e)
    ensures r.Some? <==> 0 <= index < |e.order|
    ensures r.Some? ==> r.value in e.texts
  {
    if 0 <= index < |e.order| then Some(e.order[index]) else None
  }

  /**
   * `removeItem` keeps the other keys in their order: the keys listed before
   * the removed one keep their index, the keys after it move up by one.
   */
  lemma RemoveKeepsKeyOrder(e: Entries, key: string, p: nat)
    requires EntriesValid(e) && p < |e.order| && e.order[p] == key
    ensures |Deleted(e, key).order| == |e.order| - 1
    ensures forall i | 0 <= i < p :: KeyAt(Deleted(e, key), i) == KeyAt(e, i)
    ensures forall i | p <= i :: KeyAt(Deleted(e, key), i) == KeyAt(e, i + 1)
  {
    WithoutAt(e.order, p);
  }

  /** Reading back a document that was set gives it back with its undefined fields dropped. */
  lemma SetThenGet(e: Entries, key: string, value: Doc)
    requires EntriesValid(e) && Utils.Portable(Obj(value))
    ensures Item(Stored(e, key, Utils.Serialize(value, true)), key) == Some(Ok(Utils.WithoutUndefined(Obj(value), false)))
  {
    Utils.SerializeRoundTrip(value);
  }

  /** A document with no undefined field reads back equal to what was set. */
  lemma SetThenGetExact(e: Entries, key: string, value: Doc)
    requires EntriesValid(e) && Utils.Portable(Obj(value)) && Utils.Settled(Obj(value), false)
    ensures Item(Stored(e, key, Utils.Serialize(value, true)), key) == Some(Ok(value))
  {
    SetThenGet(e, key, value);
    Utils.SettledIsUnchanged(Obj(value), false);
  }

  /** Setting a key twice leaves the store as setting it once to the second value does. */
  lemma SetOverwrites(e: Entries, key: string, first: Doc, second: Doc)
    requires EntriesValid(e)
    ensures Stored(Stored(e, key, first), key, second) == Stored(e, key, second)
  {
    assert e.texts[key := first][key := second] == e.texts[key := second];
  }

  /** Setting a key changes what no other key reads, and only a new key lengthens the key list. */
  lemma SetKeepsOthers(e: Entries, key: string, text: Doc, other: string)
    requires EntriesValid(e) && other != key
    ensures Item(Stored(e, key, text), other) == Item(e, other)
    ensures forall i | 0 <= i < |e.order| :: KeyAt(Stored(e, key, text), i) == KeyAt(e, i)
    ensures KeyAt(Stored(e, key, text), |e.order|) == if key in e.texts then None else Some(key)
  {
  }

  /** After `removeItem(key)` the key reads undefined and every other key reads what it did. */
  lemma RemoveOnlyThatKey(e: Entries, key: string, other: string)
    requires EntriesValid(e)
    ensures Item(Deleted(e, key), key).None?
    ensures other != key ==> Item(Deleted(e, key), other) == Item(e, other)
    ensures |Deleted(e, key).order| == if key in e.texts then |e.order| - 1 else |e.order|
  {
    LengthCountsKeys(e);
    LengthCountsKeys(Deleted(e, key));
  }

  /** The key list has exactly one entry per stored key, so `length` counts the distinct keys. */
  lemma LengthCountsKeys(e: Entries)
    requires EntriesValid(e)
    ensures |e.order| == |e.texts|
  {
    DistinctCardinality(e.order);
  }

  /** A store that was cleared reads undefined everywhere and lists no key. */
  lemma ClearedIsEmpty(key: string, index: int)
    ensures EntriesValid(Entries([], map[]))
    ensures Item(Entries([], map[]), key).None? && KeyAt(Entries([], map[]), index).None?
  {
  }

  /** Keys set one after another, none set before, are listed in the order they were set. */
  lemma KeysInInsertionOrder(e: Entries, k1: string, t1: Doc, k2: string, t2: Doc)
    requires EntriesValid(e) && k1 !in e.texts && k2 !in e.texts && k1 != k2
    ensures var r := Stored(Stored(e, k1, t1), k2, t2);
      KeyAt(r, |e.order|) == Some(k1) && KeyAt(r, |e.order| + 1) == Some(k2) && KeyAt(r, |e.order| + 2).None?
  {
  }

  class LocalStorageMock {
    var store: Entries

    ghost predicate Valid()
      reads this
    {
      EntriesValid(store)
    }

    constructor ()
      ensures Valid() && store == Entries([], map[])
    {
      store := Entries([], map[]);
    }

    method Clear()
      modifies this
      ensures Valid() && store == Entries([], map[])
    {
      store := Entries([], map[]);
    }

    method GetItem(key: string) returns (r: Option<Result<Doc, Error>>)
      requires Valid()
      ensures r == Item(store, key)
      ensures key in store.texts ==> r == Some(Utils.Deserialize(store.texts[key]))
    {
      if key !in store.texts {
        return None;
      }
      r := Some(Utils.Deserialize(store.texts[key]));
    }

    /** Stores the serialized value (undefined fields removed) under the key. */
    method SetItem(key: string, value: Doc)
      requires Valid()
      modifies this
      ensures Valid() && store == Stored(old(store), key, Utils.Serialize(value, true))
    {
      store := Stored(store, key, Utils.Serialize(value, true));
    }

    method RemoveItem(key: string)
      requires Valid()
      modifies this
      ensures Valid() && store == Deleted(old(store), key)
    {
      store := Deleted(store, key);
    }

    method Key(index: int) returns (r: Option<string>)
      requires Valid()
      ensures r == KeyAt(store, index)
      ensures r.Some? ==> r.value in store.texts
    {
      if 0 <= index < |store.order| {
        r := Some(store.order[index]);
      } else {
        r := None;
      }
    }

    /** `length`: the number of keys `Object.keys` lists, which is the number of stored keys. */
    method Length() returns (n: nat)
      requires Valid()
      ensures n == |store.texts|
    {
      n := |store.order|;
      LengthCountsKeys(store);
    }
  }
}
