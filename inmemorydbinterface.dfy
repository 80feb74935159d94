/**
 * The in-memory backend of mongo-anywhere (src/InMemoryDbInterface.ts): its
 * own copy of the document codec, which treats every field named `_id`
 * specially, and the glue that stores serialized documents in a minimongo
 * collection.
 */
module InMemory {
  import opened Wrappers
  import opened JsonValue
  import opened Sequences
  import Ejson
  import Utils
  import DbInterface

  // ---------------------------------------------------------------------
  // The local removeUndefinedValues
  // ---------------------------------------------------------------------

  /** The local `removeUndefinedValues`: like the one in utils.ts, except that ObjectId array elements are spread as well. */
  method RemoveUndefinedValues(obj: Json) returns (newObj: Doc)
    requires IsObjectTyped(obj)
    ensures newObj == Utils.WithoutUndefined(obj, true)
    decreases obj, 1
  {
    var copy := Spread(obj);
    newObj := copy;
    var pending := copy.Keys;
    while pending != {}
      invariant pending <= copy.Keys
      invariant forall k | k in pending :: k in newObj && newObj[k] == copy[k]
      invariant forall k | k in copy && k !in pending && !copy[k].Undef? :: k in newObj && newObj[k] == Utils.CleanedField(copy[k], true)
      invariant forall k | k in newObj :: k in copy && (k in pending || !copy[k].Undef?)
      decreases pending
    {
      var key :| key in pending;
      pending := pending - {key};
      var value := newObj[key];
      if value.Undef? {
        newObj := newObj - {key};
      } else {
        var cleaned := CleanField(value);
        newObj := newObj[key := cleaned];
      }
    }
    Utils.AllFieldsCleaned(obj, true, copy, newObj);
  }

  /** The body of the for-in loop of `removeUndefinedValues`, for one defined field. */
  method CleanField(value: Json) returns (r: Json)
    ensures r == Utils.CleanedField(value, true)
    decreases value, 2
  {
    if value.Arr? {
      var mapped := RemoveUndefinedFromItems(value);
      r := Arr(mapped);
    } else if !value.Null? && IsObjectTyped(value) && !value.Oid? {
      var cleaned := RemoveUndefinedValues(value);
      r := Obj(cleaned);
    } else {
      r := value;
    }
  }

  /** The `map` callback of the local `removeUndefinedValues`: every element whose typeof is "object" is cleaned. */
  method RemoveUndefinedFromItems(value: Json) returns (mapped: seq<Json>)
    requires value.Arr?
    ensures Arr(mapped) == Utils.CleanedField(value, true)
    decreases value, 0
  {
    var items := value.items;
    mapped := [];
    while |mapped| < |items|
      invariant |mapped| <= |items|
      invariant forall i | 0 <= i < |mapped| :: mapped[i] == Utils.CleanedItem(items[i], true)
    {
      var item := items[|mapped|];
      if IsObjectTyped(item) {
        var cleaned := RemoveUndefinedValues(item);
        item := Obj(cleaned);
      }
      mapped := mapped + [item];
    }
  }

  // ---------------------------------------------------------------------
  // The local replaceOidOperator
  // ---------------------------------------------------------------------

  /**
   * What a field named `_id` becomes. Encoding reads its `$oid` property
   * (undefined on anything but an object that has one); decoding builds
   * `new ObjectId(String(x))`. Both throw (`None`) on null and undefined,
   * and decoding throws when bson refuses the text.
   */
  function IdReplaced(x: Json, idsToString: bool): (r: Option<Json>)
    ensures IsNullish(x) ==> r.None?
    ensures idsToString && !IsNullish(x) ==> r == Some(if x.Obj? then Field(x.fields, "$oid") else Undef)
    ensures !idsToString && !IsNullish(x) ==> (r.Some? <==> IsHexId(JsString(x)))
    ensures !idsToString && r.Some? ==> r.value == Oid(ParseHexId(JsString(x)))
  {
    if IsNullish(x) then None
    else if idsToString then Some(if x.Obj? then Field(x.fields, "$oid") else Undef)
    else
      match ToObjectId(Str(JsString(x)))
      case Ok(id) => Some(Oid(id))
      case Err(_) => None
  }

  /** The object the local `replaceOidOperator(v, idsToString)` builds from `{...v}`, or `None` when it throws. */
  function LocalReplaced(v: Json, idsToString: bool): (r: Option<Doc>)
    requires IsObjectTyped(v)
    ensures r.Some? ==> r.value.Keys == Spread(v).Keys
    ensures r.Some? <==> forall k | k in Spread(v) :: LocalReplacedField(k, Spread(v)[k], idsToString).Some?
    decreases v, 0
  {
    var copy := Spread(v);
    if forall k | k in copy :: LocalReplacedField(k, copy[k], idsToString).Some? then
      Some(map k | k in copy :: LocalReplacedField(k, copy[k], idsToString).value)
    else
      None
  }

  /** What the field `key` becomes: `_id` is replaced, arrays are mapped, plain objects walked, anything else kept. */
  function LocalReplacedField(key: string, x: Json, idsToString: bool): Option<Json>
    decreases x, 1
  {
    if key == "_id" then IdReplaced(x, idsToString)
    else if x.Arr? then
      if forall i | 0 <= i < |x.items| :: LocalReplacedItem(x.items[i], idsToString).Some? then
        Some(Arr(seq(|x.items|, i requires 0 <= i < |x.items| => LocalReplacedItem(x.items[i], idsToString).value)))
      else
        None
    else if x.Obj? then
      match LocalReplaced(x, idsToString)
      case Some(m) => Some(Obj(m))
      case None => None
    else Some(x)
  }

  /** What an array element becomes: every element whose typeof is "object" (null and ObjectIds included) is walked. */
  function LocalReplacedItem(x: Json, idsToString: bool): Option<Json>
    decreases x, 1
  {
    if IsObjectTyped(x) then
      match LocalReplaced(x, idsToString)
      case Some(m) => Some(Obj(m))
      case None => None
    else Some(x)
  }

  /** The local `replaceOidOperator`: a for-in loop over a spread copy; `None` is a thrown exception. */
  method ReplaceOidOperator(obj: Json, idsToString: bool) returns (r: Option<Doc>)
    requires IsObjectTyped(obj)
    ensures r == LocalReplaced(obj, idsToString)
    decreases obj, 1
  {
    var copy := Spread(obj);
    var newObj := copy;
    var pending := copy.Keys;
    while pending != {}
      invariant pending <= copy.Keys && newObj.Keys == copy.Keys
      invariant forall k | k in pending :: newObj[k] == copy[k]
      invariant forall k | k in copy && k !in pending ::
        LocalReplacedField(k, copy[k], idsToString).Some? && newObj[k] == LocalReplacedField(k, copy[k], idsToString).value
      decreases pending
    {
      var key :| key in pending;
      pending := pending - {key};
      var replaced := ReplaceField(key, newObj[key], idsToString);
      if replaced.None? {
        FieldThrows(obj, idsToString, key);
        return None;
      }
      newObj := newObj[key := replaced.value];
    }
    AllFieldsReplaced(obj, idsToString, copy, newObj);
    r := Some(newObj);
  }

  /** One field that throws makes the whole walk throw. */
  lemma {:induction false} FieldThrows(obj: Json, idsToString: bool, key: string)
    requires IsObjectTyped(obj) && key in Spread(obj)
    requires LocalReplacedField(key, Spread(obj)[key], idsToString).None?
    ensures LocalReplaced(obj, idsToString).None?
  {
  }

  /** A map holding the replacement of every field of the spread copy is what the walk builds. */
  lemma {:induction false} AllFieldsReplaced(obj: Json, idsToString: bool, copy: Doc, newObj: Doc)
    requires IsObjectTyped(obj) && copy == Spread(obj) && newObj.Keys == copy.Keys
    requires forall k | k in copy ::
      LocalReplacedField(k, copy[k], idsToString).Some? && newObj[k] == LocalReplacedField(k, copy[k], idsToString).value
    ensures LocalReplaced(obj, idsToString) == Some(newObj)
  {
    assert newObj == map k | k in copy :: LocalReplacedField(k, copy[k], idsToString).value;
    assert LocalReplaced(obj, idsToString).Some?;
    assert LocalReplaced(obj, idsToString).value == newObj;
  }


  /** The body of the for-in loop for one key, with the value it holds; `None` is a thrown exception. */
  method ReplaceField(key: string, value: Json, idsToString: bool) returns (r: Option<Json>)
    ensures r == LocalReplacedField(key, value, idsToString)
    decreases value, 2
  {
    if key == "_id" {
      if IsNullish(value) {
        return None;
      }
      if idsToString {
        return Some(if value.Obj? then Field(value.fields, "$oid") else Undef);
      }
      var parsed := ToObjectId(Str(JsString(value)));
      if parsed.Err? {
        return None;
      }
      return Some(Oid(parsed.value));
    } else if value.Arr? {
      var mapped := ReplaceOidInItems(value, idsToString);
      if mapped.None? {
        return None;
      }
      assert Arr(mapped.value) == LocalReplacedField(key, value, idsToString).value;
      return Some(Arr(mapped.value));
    } else if value.Obj? {
      var walked := ReplaceOidOperator(value, idsToString);
      if walked.None? {
        return None;
      }
      return Some(Obj(walked.value));
    }
    return Some(value);
  }

  /** The `map` callback of the local `replaceOidOperator`, applied to every element of an array. */
  method ReplaceOidInItems(value: Json, idsToString: bool) returns (r: Option<seq<Json>>)
    requires value.Arr?
    ensures r.Some? <==> forall i | 0 <= i < |value.items| :: LocalReplacedItem(value.items[i], idsToString).Some?
    ensures r.Some? ==>
      && |r.value| == |value.items|
      && forall i | 0 <= i < |value.items| :: r.value[i] == LocalReplacedItem(value.items[i], idsToString).value
    decreases value, 0
  {
    var items := value.items;
    var mapped := [];
    while |mapped| < |items|
      invariant |mapped| <= |items|
      invariant forall i | 0 <= i < |mapped| ::
        LocalReplacedItem(items[i], idsToString).Some? && mapped[i] == LocalReplacedItem(items[i], idsToString).value
    {
      var item := items[|mapped|];
      if IsObjectTyped(item) {
        var walked := ReplaceOidOperator(item, idsToString);
        if walked.None? {
          return None;
        }
        item := Obj(walked.value);
      }
      mapped := mapped + [item];
    }
    r := Some(mapped);
  }

  // ---------------------------------------------------------------------
  // The local serialize / deserialize
  // ---------------------------------------------------------------------

  /** The local `serialize(obj, removeUndefined)`; `None` when it throws. An ObjectId `_id` is stored as its bare hex. */
  function LocalSerialize(obj: Doc, removeUndefined: bool): (r: Option<Doc>)
    ensures r.Some? ==> r.value.Keys <= obj.Keys
  {
    var cleaned := if removeUndefined then Utils.WithoutUndefined(Obj(obj), true) else obj;
    LocalReplaced(Ejson.Serialize(Obj(cleaned)), true)
  }

  /** Whenever serializing succeeds, an ObjectId `_id` is stored as its bare hex. */
  lemma SerializedIdIsBareHex(obj: Doc, removeUndefined: bool)
    requires "_id" in obj && obj["_id"].Oid? && LocalSerialize(obj, removeUndefined).Some?
    ensures "_id" in LocalSerialize(obj, removeUndefined).value
    ensures LocalSerialize(obj, removeUndefined).value["_id"] == Str(obj["_id"].id)
  {
    if removeUndefined {
      Utils.KeepsObjectIdFields(Obj(obj), true, "_id");
    }
  }

  /** The local `deserialize(v)` of an object or null; `None` when it throws. Every top-level `_id` comes back as an ObjectId. */
  function LocalDeserialize(v: Json): (r: Option<Doc>)
    requires v.Obj? || v.Null?
    ensures v.Null? ==> r == Some(map[])
    ensures r.Some? && "_id" in r.value ==> r.value["_id"].Oid?
  {
    match Ejson.Deserialize(v)
    case Ok(e) => LocalReplaced(e, false)
    case Err(_) => None
  }

  /** The local `serialize`, run step by step: clean, EJSON-serialize, replace the ids. */
  method SerializeDoc(obj: Doc, removeUndefined: bool) returns (r: Option<Doc>)
    ensures r == LocalSerialize(obj, removeUndefined)
  {
    var cleaned := obj;
    if removeUndefined {
      cleaned := RemoveUndefinedValues(Obj(obj));
    }
    r := ReplaceOidOperator(Ejson.Serialize(Obj(cleaned)), true);
  }

  /** The local `deserialize`, run step by step: EJSON-deserialize, then rebuild the ids. */
  method DeserializeDoc(v: Json) returns (r: Option<Doc>)
    requires v.Obj? || v.Null?
    ensures r == LocalDeserialize(v)
  {
    var e := Ejson.Deserialize(v);
    if e.Err? {
      return None;
    }
    r := ReplaceOidOperator(e.value, false);
  }

  /** Every `_id` field, at every depth, holds the bare lower-case hex of an ObjectId (no `oid:` tag). */
  predicate BareIds(v: Json) {
    match v
    case Obj(m) => ("_id" in m ==> m["_id"].Str? && IsCanonicalId(m["_id"].s)) && forall k | k in m :: BareIds(m[k])
    case Arr(items) => forall i | 0 <= i < |items| :: BareIds(items[i])
    case _ => true
  }

  /**
   * The documents the local codec carries over: no undefined, no field name
   * EJSON reserves, every `_id` at every depth an ObjectId, and arrays holding neither
   * null, arrays nor ObjectIds (those are spread into objects).
   */
  predicate LocalPortable(v: Json) {
    match v
    case Undef => false
    case Arr(items) =>
      forall i | 0 <= i < |items| :: !IsNullish(items[i]) && !items[i].Arr? && !items[i].Oid? && LocalPortable(items[i])
    case Obj(m) => ("_id" in m ==> m["_id"].Oid?) && forall k | k in m :: !Ejson.IsReservedKey(k) && LocalPortable(m[k])
    case _ => true
  }

  lemma {:induction false} PortableIsSettled(v: Json)
    requires LocalPortable(v)
    ensures Utils.Settled(v, true)
  {
    match v
    case Obj(m) =>
      forall k | k in m
        ensures Utils.Settled(m[k], true)
      {
        PortableIsSettled(m[k]);
      }
    case Arr(items) =>
      forall i | 0 <= i < |items|
        ensures Utils.Settled(items[i], true)
      {
        PortableIsSettled(items[i]);
      }
    case _ =>
  }

  /** One field survives the local serialize-then-deserialize, and its encoded form holds bare ids. */
  predicate FieldTrips(k: string, x: Json) {
    var f := LocalReplacedField(k, Ejson.Serialize(x), true);
    && f.Some? && BareIds(f.value) && (k == "_id" ==> x.Oid? && f.value == Str(x.id))
    && Ejson.Deserialize(f.value).Ok? && LocalReplacedField(k, Ejson.Deserialize(f.value).value, false) == Some(x)
  }

  /** One array element survives the local serialize-then-deserialize. */
  predicate ItemTrips(x: Json) {
    var f := LocalReplacedItem(Ejson.Serialize(x), true);
    && f.Some? && BareIds(f.value)
    && Ejson.Deserialize(f.value).Ok? && LocalReplacedItem(Ejson.Deserialize(f.value).value, false) == Some(x)
  }

  /** An object survives the local serialize-then-deserialize. */
  predicate ObjectTrips(v: Json)
    requires v.Obj?
  {
    var f := LocalReplaced(Ejson.Serialize(v), true);
    && f.Some? && BareIds(Obj(f.value)) && !Ejson.IsOidForm(f.value)
    && Ejson.Deserialize(Obj(f.value)).Ok? && Ejson.Deserialize(Obj(f.value)).value.Obj?
    && LocalReplaced(Ejson.Deserialize(Obj(f.value)).value, false) == Some(v.fields)
  }

  /** Encoding an object whose fields each survive: field by field, with the same keys. */
  lemma EncodesFields(v: Json)
    requires v.Obj?
    requires forall k | k in v.fields :: LocalReplacedField(k, Ejson.Serialize(v.fields[k]), true).Some?
    ensures var f := LocalReplaced(Ejson.Serialize(v), true);
      && f.Some? && f.value.Keys == v.fields.Keys
      && forall k | k in v.fields :: f.value[k] == LocalReplacedField(k, Ejson.Serialize(v.fields[k]), true).value
  {
    var e := Ejson.Serialize(v);
    assert forall k | k in v.fields :: e.fields[k] == Ejson.Serialize(v.fields[k]);
  }

  /** Decoding an object none of whose fields is `$oid`: field by field, with the same keys. */
  lemma DecodesFields(s: Doc, m: Doc)
    requires s.Keys == m.Keys && "$oid" !in s
    requires forall k | k in s :: Ejson.Deserialize(s[k]).Ok? && LocalReplacedField(k, Ejson.Deserialize(s[k]).value, false) == Some(m[k])
    ensures Ejson.Deserialize(Obj(s)).Ok? && Ejson.Deserialize(Obj(s)).value.Obj?
    ensures LocalReplaced(Ejson.Deserialize(Obj(s)).value, false) == Some(m)
  {
    Ejson.DeserializesFields(s);
    var back := Ejson.Deserialize(Obj(s)).value;
    assert LocalReplaced(back, false).value == m;
  }

  /** An object whose fields each survive survives as a whole. */
  lemma ObjectTripsFromFields(v: Json)
    requires v.Obj? && "$oid" !in v.fields
    requires forall k | k in v.fields :: FieldTrips(k, v.fields[k])
    ensures ObjectTrips(v)
  {
    EncodesFields(v);
    var s := LocalReplaced(Ejson.Serialize(v), true).value;
    assert forall k | k in s :: BareIds(s[k]);
    DecodesFields(s, v.fields);
  }

  lemma {:induction false} ObjectRoundTrip(v: Json)
    requires v.Obj? && LocalPortable(v)
    ensures ObjectTrips(v)
    decreases v, 0
  {
    forall k | k in v.fields
      ensures FieldTrips(k, v.fields[k])
    {
      FieldRoundTrip(k, v.fields[k]);
    }
    ObjectTripsFromFields(v);
  }

  lemma {:induction false} FieldRoundTrip(k: string, x: Json)
    requires LocalPortable(x) && (k == "_id" ==> x.Oid?)
    ensures FieldTrips(k, x)
    decreases x, 1
  {
    if k == "_id" {
      assert JsString(Str(x.id)) == x.id;
    } else {
      match x
      case Oid(id) =>
        ReplacedSingleton("$oid", Str(id), true);
      case Obj(_) =>
        ObjectRoundTrip(x);
      case Arr(items) =>
        var e := Ejson.Serialize(x).items;
        forall i | 0 <= i < |items|
          ensures e[i] == Ejson.Serialize(items[i]) && ItemTrips(items[i])
        {
          ItemRoundTrip(items[i]);
        }
        ItemsTrip(k, x);
      case _ =>
    }
  }

  /** Encoding an array whose elements each encode: element by element, with the same length. */
  lemma EncodesItems(k: string, x: Json)
    requires k != "_id" && x.Arr?
    requires forall i | 0 <= i < |x.items| :: LocalReplacedItem(Ejson.Serialize(x.items[i]), true).Some?
    ensures var f := LocalReplacedField(k, Ejson.Serialize(x), true);
      && f.Some? && f.value.Arr? && |f.value.items| == |x.items|
      && forall i | 0 <= i < |x.items| :: f.value.items[i] == LocalReplacedItem(Ejson.Serialize(x.items[i]), true).value
  {
    var e := Ejson.Serialize(x).items;
    assert forall i | 0 <= i < |x.items| :: e[i] == Ejson.Serialize(x.items[i]);
  }

  /** Decoding an array whose elements each decode: element by element, with the same length. */
  lemma DecodesItems(k: string, s: seq<Json>, m: seq<Json>)
    requires k != "_id" && |s| == |m|
    requires forall i | 0 <= i < |s| :: Ejson.Deserialize(s[i]).Ok? && LocalReplacedItem(Ejson.Deserialize(s[i]).value, false) == Some(m[i])
    ensures Ejson.Deserialize(Arr(s)).Ok?
    ensures LocalReplacedField(k, Ejson.Deserialize(Arr(s)).value, false) == Some(Arr(m))
  {
    Ejson.DeserializesItems(s);
    var back := Ejson.Deserialize(Arr(s)).value;
    assert LocalReplacedField(k, back, false).value.items == m;
  }

  /** An array whose elements each survive survives as a field. */
  lemma ItemsTrip(k: string, x: Json)
    requires k != "_id" && x.Arr?
    requires forall i | 0 <= i < |x.items| :: ItemTrips(x.items[i])
    ensures FieldTrips(k, x)
  {
    EncodesItems(k, x);
    var f := LocalReplacedField(k, Ejson.Serialize(x), true).value;
    assert BareIds(f);
    DecodesItems(k, f.items, x.items);
  }

  lemma {:induction false} ItemRoundTrip(x: Json)
    requires LocalPortable(x) && !IsNullish(x) && !x.Arr? && !x.Oid?
    ensures ItemTrips(x)
    decreases x, 1
  {
    if x.Obj? {
      ObjectRoundTrip(x);
    }
  }

  /**
   * `deserialize(serialize(d))` gives `d` back for every portable document,
   * and the serialized form holds every `_id` as bare hex.
   */
  lemma LocalRoundTrip(d: Doc)
    requires LocalPortable(Obj(d))
    ensures LocalSerialize(d, true).Some? && BareIds(Obj(LocalSerialize(d, true).value))
    ensures LocalDeserialize(Obj(LocalSerialize(d, true).value)) == Some(d)
  {
    PortableIsSettled(Obj(d));
    Utils.SettledIsUnchanged(Obj(d), true);
    ObjectRoundTrip(Obj(d));
    var s := LocalSerialize(d, true).value;
    assert Ejson.Deserialize(Obj(s)).Ok?;
  }

  /** Replacing in a one-field object replaces that field. */
  lemma ReplacedSingleton(k: string, x: Json, idsToString: bool)
    requires LocalReplacedField(k, x, idsToString).Some?
    ensures LocalReplaced(Obj(map[k := x]), idsToString) == Some(map[k := LocalReplacedField(k, x, idsToString).value])
  {
    var m := map[k := x];
    assert Spread(Obj(m)) == m;
    assert forall j | j in m :: LocalReplacedField(j, m[j], idsToString).Some?;
    var r := LocalReplaced(Obj(m), idsToString).value;
    assert r.Keys == {k} && r[k] == LocalReplacedField(k, x, idsToString).value;
    assert r == map[k := LocalReplacedField(k, x, idsToString).value];
  }

  /** Cleaning a one-field object whose value is defined and needs no cleaning changes nothing. */
  lemma CleanedSingleton(k: string, x: Json)
    requires !x.Undef? && Utils.CleanedField(x, true) == x
    ensures Utils.WithoutUndefined(Obj(map[k := x]), true) == map[k := x]
  {
    var c := Utils.WithoutUndefined(Obj(map[k := x]), true);
    assert c.Keys == {k} && c[k] == x;
  }

  /** EJSON-serializing a one-field object serializes that field. */
  lemma EncodedSingleton(k: string, x: Json)
    ensures Ejson.Serialize(Obj(map[k := x])) == Obj(map[k := Ejson.Serialize(x)])
  {
    var e := Ejson.Serialize(Obj(map[k := x])).fields;
    assert e.Keys == {k} && e[k] == Ejson.Serialize(x);
  }

  /** Cleaning, then EJSON-serializing, a one-field object that needs no cleaning. */
  lemma SerializedSingleton(k: string, x: Json)
    requires !x.Undef? && Utils.CleanedField(x, true) == x
    ensures Utils.WithoutUndefined(Obj(map[k := x]), true) == map[k := x]
    ensures Ejson.Serialize(Obj(map[k := x])) == Obj(map[k := Ejson.Serialize(x)])
  {
    CleanedSingleton(k, x);
    EncodedSingleton(k, x);
  }

  /** Encoding reads `$oid` off a string `_id`, which has none: the id is lost. */
  lemma StringIdIsLost(s: string)
    ensures LocalSerialize(map["_id" := Str(s)], true) == Some(map["_id" := Undef])
  {
    SerializedSingleton("_id", Str(s));
    ReplacedSingleton("_id", Str(s), true);
  }

  /** The encoding of `{_id: {$oid: hex}}`, which EJSON makes of `{_id: id}`: `{_id: "<hex>"}`. */
  lemma EncodesIdObject(id: ObjectId)
    ensures LocalReplaced(Obj(map["_id" := Ejson.OidWrapper(id)]), true) == Some(IdQuery(id))
  {
    ReplacedSingleton("_id", Ejson.OidWrapper(id), true);
  }

  /** A nested `_id` is rewritten as well: `{a: {_id: id}}` is stored as `{a: {_id: "<hex>"}}`. */
  lemma NestedIdIsBareHex(id: ObjectId)
    ensures LocalSerialize(map["a" := Obj(map["_id" := Oid(id)])], true) == Some(map["a" := Obj(IdQuery(id))])
  {
    var inner := map["_id" := Oid(id)];
    SerializedSingleton("_id", Oid(id));
    assert Utils.CleanedField(Obj(inner), true) == Obj(inner);
    SerializedSingleton("a", Obj(inner));
    EncodesIdObject(id);
    ReplacedSingleton("a", Obj(map["_id" := Ejson.OidWrapper(id)]), true);
  }

  /** A nested `_id` that is no ObjectId is stored as undefined: `{a: {_id: "s"}}` becomes `{a: {_id: undefined}}`. */
  lemma NestedStringIdIsLost(s: string)
    ensures LocalSerialize(map["a" := Obj(map["_id" := Str(s)])], true) == Some(map["a" := Obj(map["_id" := Undef])])
  {
    var inner := map["_id" := Str(s)];
    SerializedSingleton("_id", Str(s));
    assert Utils.CleanedField(Obj(inner), true) == Obj(inner);
    SerializedSingleton("a", Obj(inner));
    ReplacedSingleton("_id", Str(s), true);
    ReplacedSingleton("a", Obj(inner), true);
  }

  /** The JSON text pass of EJSON drops an undefined field: `{a: {_id: undefined}}` is read back as `{a: {}}`. */
  lemma UndefinedIdIsDropped()
    ensures LocalDeserialize(Obj(map["a" := Obj(map["_id" := Undef])])) == Some(map["a" := Obj(map[])])
  {
    var read := map["a" := Obj(map[])];
    var t := Ejson.ViaText(Obj(map["a" := Obj(map["_id" := Undef])]));
    assert Ejson.ViaText(Obj(map["_id" := Undef])) == Obj(map[]);
    assert t.fields.Keys == {"a"};
    assert t == Obj(read);
    Ejson.RevivesPlain(Obj(read));
    assert LocalReplaced(Obj(map[]), false) == Some(map[]);
    ReplacedSingleton("a", Obj(map[]), false);
  }

  /**
   * A document with a nested `_id` that is no ObjectId is read back without
   * that `_id`: `{a: {_id: "s"}}` comes back as `{a: {}}`.
   */
  lemma NestedStringIdIsDropped(s: string)
    ensures LocalSerialize(map["a" := Obj(map["_id" := Str(s)])], true).Some?
    ensures LocalDeserialize(Obj(LocalSerialize(map["a" := Obj(map["_id" := Str(s)])], true).value)) == Some(map["a" := Obj(map[])])
  {
    NestedStringIdIsLost(s);
    UndefinedIdIsDropped();
  }

  /** The id query `{_id: id}` serializes to `{_id: "<hex>"}` with either setting of `removeUndefined`. */
  lemma IdQuerySerialization(id: ObjectId)
    ensures LocalSerialize(map["_id" := Oid(id)], true) == Some(IdQuery(id))
    ensures LocalSerialize(map["_id" := Oid(id)], false) == Some(IdQuery(id))
  {
    SerializedSingleton("_id", Oid(id));
    EncodesIdObject(id);
  }

  /** A query that selects by a stored `_id`. */
  function IdQuery(hex: string): Doc {
    map["_id" := Str(hex)]
  }

  // ---------------------------------------------------------------------
  // The minimongo collections
  // ---------------------------------------------------------------------

  /**
   * A minimongo collection: its documents, in serialized form, filed under
   * `String(_id)`, and `order`, the order `Object.values` lists them in
   * (insertion order).
   */
  datatype MiniCollection = MiniCollection(order: seq<string>, items: map<string, Doc>)

  const Empty := MiniCollection([], map[])

  /** The key minimongo files a document under. */
  function DocKey(d: Doc): string
    requires "_id" in d
  {
    JsString(d["_id"])
  }

  /** Every key listed once, the list and the items agree, and each document sits under its own key. */
  predicate MiniValid(col: MiniCollection) {
    && Distinct(col.order)
    && col.items.Keys == (set k | k in col.order)
    && forall k | k in col.items :: "_id" in col.items[k] && DocKey(col.items[k]) == k
  }

  /** `backingDb.collections`. */
  type Collections = map<string, MiniCollection>

  predicate AllValid(cols: Collections) {
    forall c | c in cols :: MiniValid(cols[c])
  }

  /** `getCollection(c)` on the collections: a collection that does not exist yet is added empty. */
  function Created(cols: Collections, c: string): (r: Collections)
    ensures c in r && r.Keys == cols.Keys + {c}
    ensures forall c2 | c2 in cols :: r[c2] == cols[c2]
    ensures c !in cols ==> r[c] == Empty
    ensures AllValid(cols) ==> AllValid(r)
  {
    if c in cols then cols else cols[c := Empty]
  }

  /** `addCollection` for each id in turn: every named collection is now a fresh empty one, whatever it held. */
  function Recreated(cols: Collections, ids: seq<string>): (r: Collections)
    ensures r.Keys == cols.Keys + (set c | c in ids)
    ensures forall c | c in ids :: r[c] == Empty
    ensures forall c | c in cols && c !in ids :: r[c] == cols[c]
    ensures AllValid(cols) ==> AllValid(r)
  {
    map c | c in cols.Keys + (set c | c in ids) :: if c in ids then Empty else cols[c]
  }

  /** Recreating one more collection extends `Recreated` by that id. */
  lemma RecreatedStep(cols: Collections, ids: seq<string>, i: nat)
    requires i < |ids|
    ensures Recreated(cols, ids[..i])[ids[i] := Empty] == Recreated(cols, ids[..i + 1])
  {
    assert ids[..i + 1] == ids[..i] + [ids[i]];
  }

  /** minimongo's `upsert` gives a document with a falsy `_id` a fresh uid. */
  function WithUid(doc: Doc, uid: string): (r: Doc)
    ensures "_id" in r && r.Keys == doc.Keys + {"_id"}
    ensures forall k | k in doc && k != "_id" :: r[k] == doc[k]
    ensures Truthy(Field(doc, "_id")) ==> r == doc
    ensures !Truthy(Field(doc, "_id")) ==> r["_id"] == Str(uid)
  {
    if Truthy(Field(doc, "_id")) then doc else doc["_id" := Str(uid)]
  }

  /** `addObject`'s own step: a falsy `_id` is replaced by a new ObjectId. */
  function WithFreshId(fields: Doc, freshId: ObjectId): (r: Doc)
    ensures "_id" in r && Truthy(r["_id"]) && r.Keys == fields.Keys + {"_id"}
    ensures forall k | k in fields && k != "_id" :: r[k] == fields[k]
    ensures Truthy(Field(fields, "_id")) ==> r == fields
    ensures !Truthy(Field(fields, "_id")) ==> r["_id"] == Oid(freshId)
  {
    if Truthy(Field(fields, "_id")) then fields else fields["_id" := Oid(freshId)]
  }

  /** Filing a document under its key replaces what was there; a new key goes to the end of the order. */
  function Put(col: MiniCollection, doc: Doc): (r: MiniCollection)
    requires MiniValid(col) && "_id" in doc
    ensures MiniValid(r)
    ensures r.items == col.items[DocKey(doc) := doc]
    ensures DocKey(doc) in col.items ==> r.order == col.order
    ensures DocKey(doc) !in col.items ==> r.order == col.order + [DocKey(doc)]
  {
    var k := DocKey(doc);
    if k in col.items then MiniCollection(col.order, col.items[k := doc])
    else
      assert k !in col.order;
      assert (set j | j in col.order + [k]) == (set j | j in col.order) + {k};
      MiniCollection(col.order + [k], col.items[k := doc])
  }

  /** `find(query).fetch()`: the documents the query selects, in order. */
  function Selected(col: MiniCollection, query: Doc, matches: DbInterface.Matcher): (r: seq<Doc>)
    requires MiniValid(col)
    ensures |r| <= |col.order|
    ensures forall d | d in r :: matches(query, d) && d in col.items.Values
  {
    DbInterface.MatchingFrom(col.order, col.items, query, matches)
  }

  /** `remove(query)`: every selected document leaves the collection; the others keep their order. */
  function RemovedMatching(col: MiniCollection, query: Doc, matches: DbInterface.Matcher): (r: MiniCollection)
    requires MiniValid(col)
    ensures MiniValid(r)
    ensures r.items == map k | k in col.items && !matches(query, col.items[k]) :: col.items[k]
  {
    var keep := k => k in col.items && !matches(query, col.items[k]);
    FilteredKeepsDistinct(col.order, keep);
    MiniCollection(Filtered(col.order, keep), map k | k in col.items && keep(k) :: col.items[k])
  }

  /** minimongo selects `{_id: h}` exactly the documents whose `_id` is the string `h`. */
  ghost predicate SelectsById(matches: DbInterface.Matcher) {
    forall h: string, d: Doc {:trigger matches(IdQuery(h), d)} :: matches(IdQuery(h), d) <==> "_id" in d && d["_id"] == Str(h)
  }

  // ---------------------------------------------------------------------
  // What each operation resolves with, and the collections it leaves
  // ---------------------------------------------------------------------

  /** Every document deserialized, or `None` when one of them throws. */
  function DeserializeAll(docs: seq<Doc>): (r: Option<seq<Doc>>)
    ensures r.Some? <==> forall i | 0 <= i < |docs| :: LocalDeserialize(Obj(docs[i])).Some?
    ensures r.Some? ==> |r.value| == |docs| && forall i | 0 <= i < |docs| :: r.value[i] == LocalDeserialize(Obj(docs[i])).value
  {
    if forall i | 0 <= i < |docs| :: LocalDeserialize(Obj(docs[i])).Some? then
      Some(seq(|docs|, i requires 0 <= i < |docs| => LocalDeserialize(Obj(docs[i])).value))
    else
      None
  }

  /** `findObject(c, query)` on a collection: `Ok(None)` is undefined, `Err` a rejection. */
  function FindOneResult(col: MiniCollection, query: Doc, matches: DbInterface.Matcher): (r: Result<Option<Doc>, Error>)
    requires MiniValid(col)
    ensures LocalSerialize(query, false).None? ==> r == Err(CodecThrew)
    ensures r.Ok? && r.value.Some? ==> r.value.value != map[]
  {
    match LocalSerialize(query, false)
    case None => Err(CodecThrew)
    case Some(q) =>
      var found := Selected(col, q, matches);
      match LocalDeserialize(if |found| > 0 then Obj(found[0]) else Null)
      case None => Err(CodecThrew)
      case Some(obj) => if obj == map[] then Ok(None) else Ok(Some(obj))
  }

  /** `findObjects(c, query)` on a collection. */
  function FindManyResult(col: MiniCollection, query: Doc, matches: DbInterface.Matcher): (r: Result<seq<Doc>, Error>)
    requires MiniValid(col)
    ensures r.Ok? ==> LocalSerialize(query, false).Some?
    ensures r.Ok? ==> |r.value| == |Selected(col, LocalSerialize(query, false).value, matches)|
  {
    match LocalSerialize(query, false)
    case None => Err(CodecThrew)
    case Some(q) =>
      match DeserializeAll(Selected(col, q, matches))
      case None => Err(CodecThrew)
      case Some(docs) => Ok(docs)
  }

  /** `countObjects(c, query)` on a collection: nothing is deserialized, so only the query can make it throw. */
  function CountResult(col: MiniCollection, query: Doc, matches: DbInterface.Matcher): (r: Result<nat, Error>)
    requires MiniValid(col)
    ensures r.Ok? <==> LocalSerialize(query, false).Some?
    ensures r.Ok? ==> r.value <= |col.items|
  {
    match LocalSerialize(query, false)
    case None => Err(CodecThrew)
    case Some(q) =>
      DistinctCardinality(col.order);
      Ok(|Selected(col, q, matches)|)
  }

  /** The collections with `c` now holding `col`. */
  function Replaced(cols: Collections, c: string, col: MiniCollection): (r: Collections)
    requires AllValid(cols) && MiniValid(col)
    ensures AllValid(r) && r.Keys == cols.Keys + {c} && r[c] == col
    ensures forall c2 | c2 in cols && c2 != c :: r[c2] == cols[c2]
  {
    cols[c := col]
  }

  /** The collections `addObject(c, doc)` leaves, `doc` already carrying its `_id`. */
  function AfterAdd(cols: Collections, c: string, doc: Doc, uid: string): (r: Collections)
    requires AllValid(cols)
    ensures AllValid(r) && r.Keys == cols.Keys + {c}
    ensures forall c2 | c2 in cols && c2 != c :: r[c2] == cols[c2]
  {
    var cs := Created(cols, c);
    match LocalSerialize(doc, true)
    case None => cs
    case Some(s) => Replaced(cs, c, Put(cs[c], WithUid(s, uid)))
  }

  /** What `addObject(c, doc)` resolves with: the stored document deserialized. */
  function AddResult(doc: Doc, uid: string): (r: Result<Doc, Error>)
    ensures LocalSerialize(doc, true).None? ==> r == Err(CodecThrew)
    ensures r.Err? ==> r.error == CodecThrew
    ensures r.Ok? && "_id" in r.value ==> r.value["_id"].Oid?
  {
    match LocalSerialize(doc, true)
    case None => Err(CodecThrew)
    case Some(s) =>
      match LocalDeserialize(Obj(WithUid(s, uid)))
      case None => Err(CodecThrew)
      case Some(d) => Ok(d)
  }

  /** The collections `deleteObjectById(c, id)` leaves. */
  function AfterDelete(cols: Collections, c: string, id: ObjectId, matches: DbInterface.Matcher): (r: Collections)
    requires AllValid(cols)
    ensures AllValid(r) && r.Keys == cols.Keys + {c}
    ensures forall c2 | c2 in cols && c2 != c :: r[c2] == cols[c2]
  {
    var cs := Created(cols, c);
    Replaced(cs, c, RemovedMatching(cs[c], IdQuery(id), matches))
  }

  /** The collections `updateObjectById(c, id, newValues)` leaves, and how it settles. */
  function AfterUpdate(cols: Collections, c: string, id: ObjectId, newValues: Doc, matches: DbInterface.Matcher): (r: (Collections, Outcome<Error>))
    requires AllValid(cols)
    ensures AllValid(r.0) && r.0.Keys == cols.Keys + {c}
    ensures forall c2 | c2 in cols && c2 != c :: r.0[c2] == cols[c2]
    ensures r.1.Fail? ==> r.0 == Created(cols, c)
  {
    var cs := Created(cols, c);
    var found := Selected(cs[c], IdQuery(id), matches);
    if |found| == 0 then (cs, Fail(NotFound))
    else
      var merged := DbInterface.MergedDoc(found[0], newValues, id);
      match LocalSerialize(merged, true)
      case None => (cs, Fail(CodecThrew))
      case Some(s) =>
        SerializedIdIsBareHex(merged, true);
        (Replaced(cs, c, Put(cs[c], s)), Pass)
  }

  // ---------------------------------------------------------------------
  // The backend
  // ---------------------------------------------------------------------

  /**
   * The in-memory backend. `collections` is the MemoryDb's collection table;
   * minimongo's selector matching is the parameter `matches`.
   */
  class InMemoryDbInterface {
    var collections: Collections
    const matches: DbInterface.Matcher

    ghost predicate Valid()
      reads this
    {
      AllValid(collections)
    }

    constructor (matches: DbInterface.Matcher)
      ensures Valid() && collections == map[] && this.matches == matches
    {
      collections := map[];
      this.matches := matches;
    }

    /**
     * `init(ids)`: adds every collection; the promise resolves once the
     * creation callbacks have run as many times as there are ids, so never
     * for an empty list.
     */
    method Init(ids: seq<string>) returns (resolved: bool)
      requires Valid()
      modifies this
      ensures Valid() && collections == Recreated(old(collections), ids)
      ensures resolved <==> |ids| > 0
    {
      var created := 0;
      resolved := false;
      for i := 0 to |ids|
        invariant created == i
        invariant resolved <==> 0 < i == |ids|
        invariant collections == Recreated(old(collections), ids[..i])
      {
        RecreatedStep(old(collections), ids, i);
        collections := collections[ids[i] := Empty];
        created := created + 1;
        if created == |ids| {
          resolved := true;
        }
      }
      assert ids[..|ids|] == ids;
    }

    method GetCollection(c: string) returns (col: MiniCollection)
      requires Valid()
      modifies this
      ensures Valid() && collections == Created(old(collections), c) && col == collections[c]
    {
      if c !in collections {
        collections := collections[c := Empty];
      }
      col := collections[c];
    }

    /** `addObject(c, obj)`: gives `obj` an id if it has none, then stores it serialized. */
    method AddObject(c: string, obj: JsObject, freshId: ObjectId, freshUid: string) returns (r: Result<Doc, Error>)
      requires Valid()
      modifies this, obj
      ensures obj.fields == WithFreshId(old(obj.fields), freshId)
      ensures Valid() && collections == AfterAdd(old(collections), c, obj.fields, freshUid)
      ensures r == AddResult(obj.fields, freshUid)
    {
      if !Truthy(Field(obj.fields, "_id")) {
        obj.fields := obj.fields["_id" := Oid(freshId)];
      }
      r := Upsert(c, obj.fields, freshUid);
    }

    /** `upsert(serialize(doc)).then(deserialize)` on the collection `c`. */
    method Upsert(c: string, doc: Doc, uid: string) returns (r: Result<Doc, Error>)
      requires Valid()
      modifies this
      ensures Valid() && collections == AfterAdd(old(collections), c, doc, uid)
      ensures r == AddResult(doc, uid)
    {
      var col := GetCollection(c);
      ghost var cs := collections;
      var serialized := SerializeDoc(doc, true);
      if serialized.None? {
        assert AfterAdd(old(collections), c, doc, uid) == cs;
        return Err(CodecThrew);
      }
      var stored := WithUid(serialized.value, uid);
      collections := Replaced(collections, c, Put(col, stored));
      assert collections == AfterAdd(old(collections), c, doc, uid);
      var back := DeserializeDoc(Obj(stored));
      r := if back.Some? then Ok(back.value) else Err(CodecThrew);
    }

    /** `deleteObjectById(c, id)`: removes every document the serialized `{_id: id}` selects. */
    method DeleteObjectById(c: string, id: ObjectId)
      requires Valid()
      modifies this
      ensures Valid() && collections == AfterDelete(old(collections), c, id, matches)
    {
      var col := GetCollection(c);
      var query := SerializeDoc(map["_id" := Oid(id)], true);
      IdQuerySerialization(id);
      collections := Replaced(collections, c, RemovedMatching(col, query.value, matches));
    }

    /** `updateObjectById(c, id, newValues)`: overlays the stored document, or fails when there is none. */
    method UpdateObjectById(c: string, id: ObjectId, newValues: Doc) returns (r: Outcome<Error>)
      requires Valid()
      modifies this
      ensures Valid() && (collections, r) == AfterUpdate(old(collections), c, id, newValues, matches)
    {
      var col := GetCollection(c);
      var query := SerializeDoc(map["_id" := Oid(id)], true);
      IdQuerySerialization(id);
      var found := Selected(col, query.value, matches);
      if |found| == 0 {
        return Fail(NotFound);
      }
      var merged := DbInterface.MergedDoc(found[0], newValues, id);
      var serialized := SerializeDoc(merged, true);
      if serialized.None? {
        return Fail(CodecThrew);
      }
      SerializedIdIsBareHex(merged, true);
      col := GetCollection(c);
      collections := Replaced(collections, c, Put(col, serialized.value));
      r := Pass;
    }

    /** `findObject(c, query)`: the first selected document deserialized; an empty result is undefined. */
    method FindObject(c: string, query: Doc) returns (r: Result<Option<Doc>, Error>)
      requires Valid()
      modifies this
      ensures Valid() && collections == Created(old(collections), c)
      ensures r == FindOneResult(collections[c], query, matches)
    {
      var col := GetCollection(c);
      var q := SerializeDoc(query, false);
      if q.None? {
        return Err(CodecThrew);
      }
      var found := Selected(col, q.value, matches);
      var obj := DeserializeDoc(if |found| > 0 then Obj(found[0]) else Null);
      if obj.None? {
        return Err(CodecThrew);
      }
      if obj.value == map[] {
        return Ok(None);
      }
      r := Ok(Some(obj.value));
    }

    /** `findObjectById(c, id)` is `findObject(c, {_id: id})`. */
    method FindObjectById(c: string, id: ObjectId) returns (r: Result<Option<Doc>, Error>)
      requires Valid()
      modifies this
      ensures Valid() && collections == Created(old(collections), c)
      ensures r == FindOneResult(collections[c], map["_id" := Oid(id)], matches)
    {
      r := FindObject(c, map["_id" := Oid(id)]);
    }

    /** `findObjects(c, query)`: every selected document, deserialized in order. */
    method FindObjects(c: string, query: Doc) returns (r: Result<seq<Doc>, Error>)
      requires Valid()
      modifies this
      ensures Valid() && collections == Created(old(collections), c)
      ensures r == FindManyResult(collections[c], query, matches)
    {
      var col := GetCollection(c);
      var q := SerializeDoc(query, false);
      if q.None? {
        return Err(CodecThrew);
      }
      var docs := DeserializeEach(Selected(col, q.value, matches));
      r := if docs.Some? then Ok(docs.value) else Err(CodecThrew);
    }

    /** `countObjects(c, query)`: the number of selected documents. */
    method CountObjects(c: string, query: Doc) returns (r: Result<nat, Error>)
      requires Valid()
      modifies this
      ensures Valid() && collections == Created(old(collections), c)
      ensures r == CountResult(collections[c], query, matches)
    {
      var col := GetCollection(c);
      var q := SerializeDoc(query, false);
      if q.None? {
        return Err(CodecThrew);
      }
      var found := Selected(col, q.value, matches);
      DistinctCardinality(col.order);
      r := Ok(|found|);
    }
  }

  /** `Object.values(res).map(deserialize)`: the first document that throws rejects the whole. */
  method DeserializeEach(docs: seq<Doc>) returns (r: Option<seq<Doc>>)
    ensures r == DeserializeAll(docs)
  {
    var out := [];
    for i := 0 to |docs|
      invariant |out| == i
      invariant forall j | 0 <= j < i :: LocalDeserialize(Obj(docs[j])).Some? && out[j] == LocalDeserialize(Obj(docs[j])).value
    {
      var d := DeserializeDoc(Obj(docs[i]));
      if d.None? {
        return None;
      }
      out := out + [d.value];
    }
    assert out == DeserializeAll(docs).value;
    r := Some(out);
  }

  // ---------------------------------------------------------------------
  // Properties of the backend
  // ---------------------------------------------------------------------

  /** When no document but the one under `key` can match, the selection is that document or nothing. */
  lemma {:induction false} MatchingOnlyKey(order: seq<string>, docs: map<string, Doc>, query: Doc, matches: DbInterface.Matcher, key: string)
    requires Distinct(order) && forall id | id in order :: id in docs
    requires forall id | id in order && id != key :: !matches(query, docs[id])
    ensures DbInterface.MatchingFrom(order, docs, query, matches) == if key in order && matches(query, docs[key]) then [docs[key]] else []
  {
    if order != [] {
      var tail := order[1..];
      assert forall i | 0 <= i < |tail| :: tail[i] == order[i + 1];
      MatchingOnlyKey(tail, docs, query, matches, key);
      if order[0] == key {
        assert key !in tail;
      }
    }
  }

  /** The id query selects the document filed under that id, if its `_id` is that id's string, and nothing else. */
  lemma SelectedById(col: MiniCollection, h: string, matches: DbInterface.Matcher)
    requires MiniValid(col) && SelectsById(matches)
    ensures Selected(col, IdQuery(h), matches) == if h in col.items && col.items[h]["_id"] == Str(h) then [col.items[h]] else []
  {
    forall id | id in col.order && id != h
      ensures !matches(IdQuery(h), col.items[id])
    {
      assert DocKey(col.items[id]) == id;
    }
    MatchingOnlyKey(col.order, col.items, IdQuery(h), matches, h);
  }

  /** A document filed under its id, whose stored form decodes to `d`, is what finding that id resolves with. */
  lemma FindStoredById(col: MiniCollection, id: ObjectId, d: Doc, matches: DbInterface.Matcher)
    requires MiniValid(col) && SelectsById(matches)
    requires id in col.items && col.items[id]["_id"] == Str(id)
    requires LocalDeserialize(Obj(col.items[id])) == Some(d) && d != map[]
    ensures FindOneResult(col, map["_id" := Oid(id)], matches) == Ok(Some(d))
  {
    SelectedById(col, id, matches);
    IdQuerySerialization(id);
  }

  /** Adding a portable document with an ObjectId files its serialized form under that id and resolves with it unchanged. */
  lemma AddStoresUnderId(cols: Collections, c: string, d: Doc, uid: string)
    requires AllValid(cols) && LocalPortable(Obj(d)) && "_id" in d && d["_id"].Oid?
    ensures var s := LocalSerialize(d, true);
      && s.Some? && "_id" in s.value && s.value["_id"] == Str(d["_id"].id)
      && LocalDeserialize(Obj(s.value)) == Some(d)
      && d["_id"].id in AfterAdd(cols, c, d, uid)[c].items
      && AfterAdd(cols, c, d, uid)[c].items[d["_id"].id] == s.value
    ensures AddResult(d, uid) == Ok(d)
  {
    LocalRoundTrip(d);
    SerializedIdIsBareHex(d, true);
    var s := LocalSerialize(d, true).value;
    assert Truthy(s["_id"]) && DocKey(s) == d["_id"].id;
    AddFilesSerialized(cols, c, d, uid);
  }

  /** `addObject` files the serialized document under its own key when its `_id` survives serialization. */
  lemma AddFilesSerialized(cols: Collections, c: string, d: Doc, uid: string)
    requires AllValid(cols) && LocalSerialize(d, true).Some?
    requires var s := LocalSerialize(d, true).value; "_id" in s && Truthy(s["_id"])
    ensures var s := LocalSerialize(d, true).value;
      DocKey(s) in AfterAdd(cols, c, d, uid)[c].items && AfterAdd(cols, c, d, uid)[c].items[DocKey(s)] == s
  {
    var s := LocalSerialize(d, true).value;
    assert WithUid(s, uid) == s;
    var cs := Created(cols, c);
    assert AfterAdd(cols, c, d, uid)[c] == Put(cs[c], s);
  }

  /** An added portable document with an ObjectId is resolved unchanged and found again by its id. */
  lemma AddThenFindById(cols: Collections, c: string, d: Doc, uid: string, matches: DbInterface.Matcher)
    requires AllValid(cols) && SelectsById(matches)
    requires LocalPortable(Obj(d)) && "_id" in d && d["_id"].Oid?
    ensures AddResult(d, uid) == Ok(d)
    ensures FindOneResult(AfterAdd(cols, c, d, uid)[c], map["_id" := d["_id"]], matches) == Ok(Some(d))
  {
    AddStoresUnderId(cols, c, d, uid);
    FindStoredById(AfterAdd(cols, c, d, uid)[c], d["_id"].id, d, matches);
  }

  /** An id under which no document carrying that `_id` is filed is found as undefined. */
  lemma FindMissingIsUndefined(col: MiniCollection, id: ObjectId, matches: DbInterface.Matcher)
    requires MiniValid(col) && SelectsById(matches) && !(id in col.items && col.items[id]["_id"] == Str(id))
    ensures FindOneResult(col, map["_id" := Oid(id)], matches) == Ok(None)
  {
    IdQuerySerialization(id);
    SelectedById(col, id, matches);
  }

  /** After a delete by id, finding that id gives undefined. */
  lemma DeleteThenFindMissing(cols: Collections, c: string, id: ObjectId, matches: DbInterface.Matcher)
    requires AllValid(cols) && SelectsById(matches)
    ensures FindOneResult(AfterDelete(cols, c, id, matches)[c], map["_id" := Oid(id)], matches) == Ok(None)
  {
    var cs := Created(cols, c);
    RemovedIdIsGone(cs[c], id, matches);
    FindMissingIsUndefined(AfterDelete(cols, c, id, matches)[c], id, matches);
  }

  /** Removing by an id query leaves no document filed under that id with that `_id`. */
  lemma RemovedIdIsGone(col: MiniCollection, id: ObjectId, matches: DbInterface.Matcher)
    requires MiniValid(col) && SelectsById(matches)
    ensures var r := RemovedMatching(col, IdQuery(id), matches);
      !(id in r.items && r.items[id]["_id"] == Str(id))
  {
  }

  /** Updating an id that is not stored rejects with "not found" and changes nothing but creating the collection. */
  lemma UpdateMissingIsNotFound(cols: Collections, c: string, id: ObjectId, newValues: Doc, matches: DbInterface.Matcher)
    requires AllValid(cols) && SelectsById(matches) && (c in cols ==> id !in cols[c].items)
    ensures AfterUpdate(cols, c, id, newValues, matches) == (Created(cols, c), Fail(NotFound))
  {
    SelectedById(Created(cols, c)[c], id, matches);
  }

  /**
   * Updating a stored document overlays it in place: it keeps its position,
   * and finding it by id gives the merged document back.
   */
  lemma UpdateThenFindById(cols: Collections, c: string, id: ObjectId, newValues: Doc, matches: DbInterface.Matcher)
    requires AllValid(cols) && SelectsById(matches)
    requires c in cols && id in cols[c].items && cols[c].items[id]["_id"] == Str(id)
    requires LocalPortable(Obj(DbInterface.MergedDoc(cols[c].items[id], newValues, id)))
    ensures AfterUpdate(cols, c, id, newValues, matches).1 == Pass
    ensures AfterUpdate(cols, c, id, newValues, matches).0[c].order == cols[c].order
    ensures FindOneResult(AfterUpdate(cols, c, id, newValues, matches).0[c], map["_id" := Oid(id)], matches)
      == Ok(Some(DbInterface.MergedDoc(cols[c].items[id], newValues, id)))
  {
    var merged := DbInterface.MergedDoc(cols[c].items[id], newValues, id);
    UpdateStoresMerged(cols, c, id, newValues, matches);
    FindStoredById(AfterUpdate(cols, c, id, newValues, matches).0[c], id, merged, matches);
  }

  /** Updating a stored document files the serialized merge under the same id, in the same place. */
  lemma UpdateStoresMerged(cols: Collections, c: string, id: ObjectId, newValues: Doc, matches: DbInterface.Matcher)
    requires AllValid(cols) && SelectsById(matches)
    requires c in cols && id in cols[c].items && cols[c].items[id]["_id"] == Str(id)
    requires LocalPortable(Obj(DbInterface.MergedDoc(cols[c].items[id], newValues, id)))
    ensures var r := AfterUpdate(cols, c, id, newValues, matches);
      var s := LocalSerialize(DbInterface.MergedDoc(cols[c].items[id], newValues, id), true);
      && r.1 == Pass && r.0[c].order == cols[c].order && s.Some?
      && id in r.0[c].items && r.0[c].items[id] == s.value && s.value["_id"] == Str(id)
      && LocalDeserialize(Obj(s.value)) == Some(DbInterface.MergedDoc(cols[c].items[id], newValues, id))
  {
    var merged := DbInterface.MergedDoc(cols[c].items[id], newValues, id);
    SelectedById(cols[c], id, matches);
    LocalRoundTrip(merged);
    SerializedIdIsBareHex(merged, true);
    var s := LocalSerialize(merged, true).value;
    assert DocKey(s) == id;
  }

  /** Whenever `findObjects` resolves, `countObjects` with the same query resolves with its length. */
  lemma CountIsFindObjectsLength(col: MiniCollection, query: Doc, matches: DbInterface.Matcher)
    requires MiniValid(col) && FindManyResult(col, query, matches).Ok?
    ensures CountResult(col, query, matches) == Ok(|FindManyResult(col, query, matches).value|)
  {
  }

  /**
   * A document whose `_id` is a non-empty string loses it on serialization
   * and is filed under minimongo's uid; reading that uid back as an ObjectId
   * throws unless it happens to be 24 hexadecimal digits, so the stored
   * document is reported as a rejection.
   */
  lemma AddWithStringIdIsRejected(cols: Collections, c: string, s: string, uid: string)
    requires AllValid(cols) && s != "" && !IsHexId(uid)
    ensures AddResult(map["_id" := Str(s)], uid) == Err(CodecThrew)
    ensures uid in AfterAdd(cols, c, map["_id" := Str(s)], uid)[c].items
  {
    StringIdIsLost(s);
    assert WithUid(map["_id" := Undef], uid) == map["_id" := Str(uid)];
    UidIdFails(uid);
    AddFilesUnderUid(cols, c, map["_id" := Str(s)], uid);
  }

  /** A document whose `_id` serializes to undefined is filed under minimongo's uid. */
  lemma AddFilesUnderUid(cols: Collections, c: string, d: Doc, uid: string)
    requires AllValid(cols) && LocalSerialize(d, true) == Some(map["_id" := Undef])
    ensures uid in AfterAdd(cols, c, d, uid)[c].items
  {
    var stored := WithUid(map["_id" := Undef], uid);
    assert stored == map["_id" := Str(uid)] && DocKey(stored) == uid;
    var cs := Created(cols, c);
    assert AfterAdd(cols, c, d, uid)[c] == Put(cs[c], stored);
  }

  /** A document filed with a non-hex uid as its `_id` cannot be deserialized. */
  lemma UidIdFails(uid: string)
    requires !IsHexId(uid)
    ensures LocalDeserialize(Obj(map["_id" := Str(uid)])).None?
  {
    var stored := map["_id" := Str(uid)];
    Ejson.DeserializePlain(Obj(stored));
    assert LocalReplacedField("_id", Str(uid), false).None?;
  }
}
